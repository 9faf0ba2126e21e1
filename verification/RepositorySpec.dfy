/**
  What the Mongo repository's operations mean: which stored documents an operation may
  see and change, and what it answers. `Repository` proves the code against it.
*/
module RepositorySpec {
  import opened Codec
  import opened DottedSet
  import opened Patch
  import opened Wrappers

  /** The entity type: the audit methods it has, and its fields. */
  datatype Kind = Kind(create: bool, update: bool, delete: bool, tenant: bool, shape: Class)

  datatype Isolation = NoIsolation | ByUser | ByTenant | ByApp

  /** The caller's context and the merged options of the call. */
  datatype Config = Config(
    kind: Kind,
    isolation: Isolation,
    softDelete: bool,
    user: Option<string>,
    tenant: Option<string>,
    app: Option<string>)

  /** `WriteFailed` is the store refusing an update that it cannot carry out. */
  datatype RepoError = NoContext | EmptyId | NotFound | Conflict | WriteFailed

  /** Documents by id. */
  type Docs = map<Val, Doc>

  /** The store, the entity object as the call leaves it, and the error, if any. */
  datatype Write = Write(docs: Docs, entity: Doc, error: Option<RepoError>)

  function Get(d: Doc, key: string): Option<Val> {
    if key in d then Some(d[key]) else None
  }

  function IdOf(e: Doc): Val {
    if "_id" in e then e["_id"] else Null
  }

  predicate Truthy(v: Option<Val>) {
    v.Some? && v.value != Null && v.value != Int(0) && v.value != Str("")
  }

  /** Every document is stored under its own id. */
  predicate Keyed(docs: Docs) {
    forall id :: id in docs ==> Get(docs[id], "_id") == Some(id)
  }

  // ---------- Visibility ----------

  /** The field and value that isolation demands, if any. */
  function Scope(cfg: Config): Result<Option<(string, Val)>, RepoError> {
    if cfg.isolation.ByUser? && cfg.kind.create then
      if cfg.user.None? then Err(NoContext) else Ok(Some(("created_by", Str(cfg.user.value))))
    else if cfg.isolation.ByTenant? && cfg.kind.tenant then
      if cfg.tenant.None? then Err(NoContext) else Ok(Some(("tenant_id", Str(cfg.tenant.value))))
    else if cfg.isolation.ByApp? && cfg.kind.tenant then
      if cfg.app.None? then Err(NoContext) else Ok(Some(("app_id", Str(cfg.app.value))))
    else Ok(None)
  }

  predicate HidesDeleted(cfg: Config) {
    cfg.softDelete && cfg.kind.delete
  }

  /** A stored document that the call may see: not deleted, and of the caller's user, tenant or app. */
  predicate Visible(cfg: Config, d: Doc) {
    && (HidesDeleted(cfg) ==> "deleted_at" !in d)
    && Scope(cfg).Ok?
    && (Scope(cfg).value.Some? ==> Get(d, Scope(cfg).value.value.0) == Some(Scope(cfg).value.value.1))
  }

  predicate Sees(cfg: Config, docs: Docs, id: Val) {
    id in docs && Visible(cfg, docs[id])
  }

  // ---------- Audits ----------

  function Stamp(cfg: Config, e: Doc, now: int): Doc
    requires cfg.kind.update ==> cfg.user.Some?
  {
    if cfg.kind.update then e["updated_by" := Str(cfg.user.value)]["updated_at" := Int(now)] else e
  }

  /** The audit of a new entity; when it fails on the way, what was set before stays set. */
  function CreateAudit(cfg: Config, e: Doc, now: int): (Doc, Option<RepoError>) {
    if cfg.kind.create && cfg.user.None? then (e, Some(NoContext))
    else
      var e1 := if cfg.kind.create then e["created_by" := Str(cfg.user.value)]["created_at" := Int(now)] else e;
      if cfg.kind.tenant && (cfg.tenant.None? || cfg.app.None?) then (e1, Some(NoContext))
      else
        var e2 :=
          if cfg.kind.tenant then e1["tenant_id" := Str(cfg.tenant.value)]["app_id" := Str(cfg.app.value)] else e1;
        if cfg.kind.update && cfg.user.None? then (e2, Some(NoContext)) else (Stamp(cfg, e2, now), None)
  }

  /** The version the entity was loaded with, when it carries one. */
  function LoadedVersion(cfg: Config, e: Doc): Option<Val> {
    if cfg.kind.update && Truthy(Get(e, "updated_at")) then Get(e, "updated_at") else None
  }

  /** The stored document is still the version the entity was loaded with. */
  predicate Fresh(cfg: Config, e: Doc, stored: Doc) {
    LoadedVersion(cfg, e).Some? ==> Get(stored, "updated_at") == LoadedVersion(cfg, e)
  }

  // ---------- Operations ----------

  function Create(cfg: Config, docs: Docs, e: Doc, now: int): Write {
    if !Truthy(Get(e, "_id")) then Write(docs, e, Some(EmptyId))
    else
      var (e', error) := CreateAudit(cfg, e, now);
      if error.Some? then Write(docs, e', error)
      else if IdOf(e) in docs then Write(docs, e', Some(Conflict))
      else Write(docs[IdOf(e) := e'], e', None)
  }

  /** The replace of an update finds nothing to replace, so the repository looks why. */
  predicate Asks(cfg: Config, docs: Docs, e: Doc, upsert: bool) {
    && !upsert && !(cfg.kind.update && cfg.user.None?) && Scope(cfg).Ok?
    && !(Sees(cfg, docs, IdOf(e)) && Fresh(cfg, e, docs[IdOf(e)]))
  }

  /**
    Replaces a visible document that is still the loaded version; an upsert may also
    insert. When there is nothing to replace, the reason is looked for in `seen`, the
    store at a later moment.
  */
  function ReplaceSeen(cfg: Config, docs: Docs, seen: Docs, e: Doc, now: int, upsert: bool): Write {
    if cfg.kind.update && cfg.user.None? then Write(docs, e, Some(NoContext))
    else
      var e' := Stamp(cfg, e, now);
      var id := IdOf(e);
      if Scope(cfg).Err? then Write(docs, e', Some(NoContext))
      else if Sees(cfg, docs, id) && Fresh(cfg, e, docs[id]) then
        if LoadedVersion(cfg, e).Some? && docs[id] == e' then Write(docs, e', Some(Conflict))
        else Write(docs[id := e'], e', None)
      else if upsert && id !in docs then Write(docs[id := e'], e', None)
      else if upsert || Sees(cfg, seen, id) then Write(docs, e', Some(Conflict))
      else Write(docs, e', Some(NotFound))
  }

  /** A replace that nobody comes between. */
  function Replace(cfg: Config, docs: Docs, e: Doc, now: int, upsert: bool): Write {
    ReplaceSeen(cfg, docs, docs, e, now, upsert)
  }

  /**
    How a replace goes with others using the store: from `before`, it leaves the entity
    and the error, and the store `after`. When it asks for a reason, it changed nothing
    itself, and the reason is that of the store as it is by then.
  */
  predicate Replaced(cfg: Config, before: Docs, after: Docs, e: Doc, now: int, upsert: bool,
                     e': Doc, error: Option<RepoError>) {
    var asks := Asks(cfg, before, e, upsert);
    var w := ReplaceSeen(cfg, before, if asks then after else before, e, now, upsert);
    e' == w.entity && error == w.error && (!asks ==> after == w.docs)
  }

  function Update(cfg: Config, docs: Docs, e: Doc, now: int): Write {
    Replace(cfg, docs, e, now, false)
  }

  /** The entity was never created through the repository. */
  predicate Uncreated(cfg: Config, e: Doc) {
    cfg.kind.create && !Truthy(Get(e, "created_at"))
  }

  function Upsert(cfg: Config, docs: Docs, e: Doc, now: int): Write {
    if Uncreated(cfg, e) then
      var (e', error) := CreateAudit(cfg, e, now);
      if error.Some? then Write(docs, e', error) else Write(docs[IdOf(e) := e'], e', None)
    else Replace(cfg, docs, e, now, true)
  }

  /** The store can set these dotted keys on the document; no update changes an id. */
  predicate CanSet(d: Doc, fields: Doc) {
    Settable(d, fields) && Get(SetFields(d, fields), "_id") == Get(d, "_id")
  }

  /** The dotted keys that a patch of an entity sets, stamped anew. */
  function PatchPayload(cfg: Config, e: Doc, later: int): Doc
    requires cfg.kind.update ==> cfg.user.Some?
  {
    Stamp(cfg, Flatten(cfg.kind.shape, e, ""), later)
  }

  /** Sets the entity's dotted keys on a visible document that is still the loaded version. */
  function PatchEntity(cfg: Config, docs: Docs, e: Doc, now: int, later: int): Write {
    if cfg.kind.update && cfg.user.None? then Write(docs, e, Some(NoContext))
    else
      var e' := Stamp(cfg, e, now);
      var id := IdOf(e);
      if Scope(cfg).Err? then Write(docs, e', Some(NoContext))
      else if Sees(cfg, docs, id) && Fresh(cfg, e, docs[id]) then
        var fields := PatchPayload(cfg, e', later);
        var patched := SetFields(docs[id], fields);
        if !CanSet(docs[id], fields) then Write(docs, e', Some(WriteFailed))
        else if LoadedVersion(cfg, e).Some? && patched == docs[id] then Write(docs, e', Some(Conflict))
        else Write(docs[id := patched], e', None)
      else Write(docs, e', Some(NotFound))
  }

  /** The marked entity of a soft delete. */
  function MarkDeleted(cfg: Config, e: Doc, now: int): Doc
    requires cfg.user.Some?
  {
    e["deleted_by" := Str(cfg.user.value)]["deleted_at" := Int(now)]
  }

  function Delete(cfg: Config, docs: Docs, e: Doc, now: int, later: int): Write {
    if cfg.kind.delete && cfg.user.None? then Write(docs, e, Some(NoContext))
    else
      var e' := if cfg.kind.delete then MarkDeleted(cfg, e, now) else e;
      if HidesDeleted(cfg) then Update(cfg, docs, e', later)
      else if Scope(cfg).Err? then Write(docs, e', Some(NoContext))
      else if Sees(cfg, docs, IdOf(e)) then Write(docs - {IdOf(e)}, e', None)
      else Write(docs, e', Some(NotFound))
  }

  /** The documents of a bulk operation: visible ones that the caller's own filter selects. */
  function Selected(cfg: Config, docs: Docs, picks: set<Val>): set<Val> {
    set id | id in docs && id in picks && Visible(cfg, docs[id])
  }

  /** Sets the same dotted keys on some documents, where the store can. */
  function SetOn(docs: Docs, ids: set<Val>, fields: Doc): Docs {
    map id | id in docs :: if id in ids && CanSet(docs[id], fields) then SetFields(docs[id], fields) else docs[id]
  }

  /** What a bulk soft delete sets on each document. It has no version. */
  function DeletionMarks(cfg: Config, now: int): Doc
    requires cfg.user.Some?
  {
    map["deleted_at" := Int(now), "deleted_by" := Str(cfg.user.value)]
  }

  function BatchDelete(cfg: Config, docs: Docs, picks: set<Val>, now: int): (Docs, Option<RepoError>) {
    if Scope(cfg).Err? then (docs, Some(NoContext))
    else if HidesDeleted(cfg) && cfg.user.None? then (docs, Some(NoContext))
    else
      var ids := Selected(cfg, docs, picks);
      if ids == {} then (docs, Some(NotFound))
      else if HidesDeleted(cfg) then
        (SetOn(docs, ids, DeletionMarks(cfg, now)), None)
      else (docs - ids, None)
  }

  /** The documents of a raw patch; `skip` leaves out the visibility conditions. */
  function Targets(cfg: Config, docs: Docs, picks: set<Val>, skip: bool): set<Val> {
    if skip then picks * docs.Keys else Selected(cfg, docs, picks)
  }

  /**
    A raw patch of all documents picked. `locked` says that the caller's filter names a
    version, so that a patch that changes nothing is a conflict.
  */
  function PatchRawMany(cfg: Config, docs: Docs, picks: set<Val>, fields: Doc, skip: bool, locked: bool, now: int)
    : (Docs, Option<RepoError>)
  {
    if !skip && Scope(cfg).Err? then (docs, Some(NoContext))
    else if cfg.kind.update && cfg.user.None? then (docs, Some(NoContext))
    else
      var ids := Targets(cfg, docs, picks, skip);
      var docs' := SetOn(docs, ids, Stamp(cfg, fields, now));
      if ids == {} then (docs, Some(NotFound))
      else if exists id :: id in ids && !CanSet(docs[id], Stamp(cfg, fields, now)) then (docs, Some(WriteFailed))
      else (docs', if locked && docs' == docs then Some(Conflict) else None)
  }
}
