/**
 * The data the synchronisation engine works on: JSON values, entity ids, the
 * five resource kinds with their static configuration, entity snapshots
 * (records) and the live `Entity` objects whose fields commit updates in place.
 */
module Models {
  import opened Wrappers
  import opened Decimal

  /** A JSON value as it appears in a command's args or an entity field; nested objects and lists stay opaque. */
  datatype Value = Null | Bool(b: bool) | Int(i: int) | Str(s: string) | Json(text: string)

  /** An entity id as the models declare it: `str | int` (absence is `None`). */
  datatype Id = IntId(n: int) | StrId(s: string)

  /** Python's truth value of `item.id`: `None`, `0` and `''` are false. */
  predicate IdTruthy(id: Option<Id>) {
    match id
    case None => false
    case Some(IntId(n)) => n != 0
    case Some(StrId(s)) => s != ""
  }

  /** `str(item.id)`. */
  function IdText(id: Id): string {
    match id
    case IntId(n) => IntToString(n)
    case StrId(s) => s
  }

  /** The id as it is serialised into a payload. */
  function IdValue(id: Id): Value {
    match id
    case IntId(n) => Int(n)
    case StrId(s) => Str(s)
  }

  /** The resource kinds, in the order the client enumerates its model classes. */
  datatype Kind = Label | Project | Reminder | Section | Task

  const AllKinds: seq<Kind> := [Label, Project, Reminder, Section, Task]

  /** Name of the manager attribute on the API object and of the cache file. */
  function CacheLabel(k: Kind): string {
    match k
    case Label => "labels"
    case Project => "projects"
    case Reminder => "reminders"
    case Section => "sections"
    case Task => "tasks"
  }

  /** Key of the kind's record list in a sync reply. */
  function ResourceType(k: Kind): string {
    match k
    case Label => "labels"
    case Project => "projects"
    case Reminder => "reminders"
    case Section => "sections"
    case Task => "items"
  }

  /** Prefix of the kind's command types. */
  function TodoistName(k: Kind): string {
    match k
    case Label => "label"
    case Project => "project"
    case Reminder => "reminder"
    case Section => "section"
    case Task => "item"
  }

  function CommandAdd(k: Kind): string { TodoistName(k) + "_add" }
  function CommandDelete(k: Kind): string { TodoistName(k) + "_delete" }
  function CommandUpdate(k: Kind): string { TodoistName(k) + "_update" }

  /** Whether the model's configuration names an `api_get` endpoint (a remote fallback exists). */
  predicate HasApiGet(k: Kind) {
    k == Project || k == Task
  }

  /** `getattr(api, name)` for the manager attributes: the kind whose cache label is `name`. */
  function KindOfLabel(name: string): (r: Option<Kind>)
    ensures r.Some? ==> CacheLabel(r.value) == name
    ensures r.None? ==> forall k :: CacheLabel(k) != name
  {
    if name == "labels" then Some(Label)
    else if name == "projects" then Some(Project)
    else if name == "reminders" then Some(Reminder)
    else if name == "sections" then Some(Section)
    else if name == "tasks" then Some(Task)
    else None
  }

  /** Dispatch by cache label is unambiguous: every kind's label leads back to that kind. */
  lemma CacheLabelDispatch(k: Kind)
    ensures KindOfLabel(CacheLabel(k)) == Some(k)
    ensures forall k' :: CacheLabel(k') == CacheLabel(k) ==> k' == k
  {
  }

  /** A snapshot of an entity: the attributes the core reads plus the schema fields. */
  datatype EntityRecord = EntityRecord(id: Option<Id>, tempId: Option<string>, isDeleted: bool, fields: map<string, Value>)

  /** A record as a sync reply carries it; the server always sends an id. */
  datatype ServerRecord = ServerRecord(id: string, isDeleted: bool, fields: map<string, Value>)

  /** `model(**x)` for a received record. */
  function FromServer(x: ServerRecord): EntityRecord {
    EntityRecord(Some(StrId(x.id)), None, x.isDeleted, x.fields)
  }

  const ReservedFields: set<string> := {"id", "temp_id", "is_deleted"}

  /** The schema fields of kind `k` whose declared default is not `None`, with that default. */
  function FieldDefaults(k: Kind): map<string, Value> {
    match k
    case Label => map["is_favorite" := Bool(false)]
    case Project => map["collapsed" := Bool(false), "shared" := Bool(false), "is_archived" := Bool(false), "is_favorite" := Bool(false)]
    case Reminder => map[]
    case Section => map["collapsed" := Bool(false), "is_archived" := Bool(false)]
    case Task => map[]
  }

  /** Whether `item.dict(exclude_none=True, exclude_defaults=True)` writes schema field `f` holding `v`: neither `None` nor the field's default. */
  predicate Written(k: Kind, f: string, v: Value) {
    v != Null && !(f in FieldDefaults(k) && FieldDefaults(k)[f] == v)
  }

  /** The schema fields of `fields` that `item.dict(exclude_none=True, exclude_defaults=True)` writes for kind `k`. */
  function WrittenFields(k: Kind, fields: map<string, Value>): (w: map<string, Value>)
    ensures forall f :: f in w <==> f in fields && f !in ReservedFields && Written(k, f, fields[f])
    ensures forall f :: f in w ==> w[f] == fields[f]
  {
    map f | f in fields && f !in ReservedFields && Written(k, f, fields[f]) :: fields[f]
  }

  /**
   * `item.dict(exclude_none=True, exclude_defaults=True)` for an entity of kind `k`:
   * the schema fields that hold neither `None` nor their default, plus `id` and
   * `temp_id` when set and `is_deleted` when true.
   */
  function Payload(k: Kind, r: EntityRecord): (p: map<string, Value>)
    ensures ("id" in p) == r.id.Some? && (r.id.Some? ==> p["id"] == IdValue(r.id.value))
    ensures ("temp_id" in p) == r.tempId.Some? && (r.tempId.Some? ==> p["temp_id"] == Str(r.tempId.value))
    ensures ("is_deleted" in p) == r.isDeleted
    ensures forall f :: f in r.fields && f !in ReservedFields && Written(k, f, r.fields[f]) ==> f in p && p[f] == r.fields[f]
    ensures forall f :: f in p && f !in ReservedFields ==> f in r.fields && p[f] == r.fields[f] && Written(k, f, r.fields[f])
    ensures forall f :: f in p ==> p[f] != Null
  {
    WrittenFields(k, r.fields)
      + (if r.id.Some? then map["id" := IdValue(r.id.value)] else map[])
      + (if r.tempId.Some? then map["temp_id" := Str(r.tempId.value)] else map[])
      + (if r.isDeleted then map["is_deleted" := Bool(true)] else map[])
  }

  /**
   * The id under which the managers address an entity: `str(item.id)` when the id
   * is truthy, otherwise the temp id (which may be unset, giving `None`).
   */
  function Address(r: EntityRecord): Value {
    if IdTruthy(r.id) then Str(IdText(r.id.value))
    else if r.tempId.Some? then Str(r.tempId.value)
    else Null
  }

  /** A live model object; the managers, the queue and the temp-id table hold references to it. */
  class Entity {
    const kind: Kind
    var id: Option<Id>
    /** Set when the entity is made and never reassigned by the engine. */
    const tempId: Option<string>
    var isDeleted: bool
    var fields: map<string, Value>

    constructor (kind: Kind, r: EntityRecord)
      ensures this.kind == kind && Snapshot() == r
    {
      this.kind := kind;
      id := r.id;
      this.tempId := r.tempId;
      isDeleted := r.isDeleted;
      fields := r.fields;
    }

    function Snapshot(): EntityRecord
      reads this
    {
      EntityRecord(id, tempId, isDeleted, fields)
    }
  }
}
