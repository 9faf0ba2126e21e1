/**
  Properties of whole runs of repository operations by any number of callers: what a call
  may not see it never touches, tombstones are permanent, and no update is lost.
*/
module RepositoryRuns {
  import opened Wrappers
  import opened Codec
  import opened DottedKeys
  import opened DottedSet
  import opened Patch
  import opened RepositorySpec

  // ---------- What a call may not see, it does not touch ----------

  datatype Op =
    | OpCreate(e: Doc, now: int)
    | OpUpdate(e: Doc, now: int)
    | OpUpsert(e: Doc, now: int)
    | OpPatch(e: Doc, now: int, later: int)
    | OpPatchRaw(picks: set<Val>, fields: Doc, skip: bool, locked: bool, now: int)
    | OpDelete(e: Doc, now: int, later: int)
    | OpBatchDelete(picks: set<Val>, now: int)

  /** An operation together with the context and options of its caller. */
  datatype Call = Call(cfg: Config, op: Op)

  function Apply(docs: Docs, call: Call): Docs {
    var cfg := call.cfg;
    match call.op
    case OpCreate(e, now) => Create(cfg, docs, e, now).docs
    case OpUpdate(e, now) => Update(cfg, docs, e, now).docs
    case OpUpsert(e, now) => Upsert(cfg, docs, e, now).docs
    case OpPatch(e, now, later) => PatchEntity(cfg, docs, e, now, later).docs
    case OpPatchRaw(picks, fields, skip, locked, now) => PatchRawMany(cfg, docs, picks, fields, skip, locked, now).0
    case OpDelete(e, now, later) => Delete(cfg, docs, e, now, later).docs
    case OpBatchDelete(picks, now) => BatchDelete(cfg, docs, picks, now).0
  }

  /** An upsert is only made of an entity that was created before. */
  predicate CreatedUpsert(call: Call) {
    call.op.OpUpsert? ==> !Uncreated(call.cfg, call.op.e)
  }

  predicate SkipsConditions(call: Call) {
    call.op.OpPatchRaw? && call.op.skip
  }

  /**
    Whatever the operation and its arguments, a document that the caller may not see, be
    it deleted or of another user, tenant or app, stays exactly as it is.
  */
  lemma InvisibleIsUntouched(docs: Docs, call: Call, id: Val)
    requires CreatedUpsert(call) && !SkipsConditions(call)
    requires id in docs && !Visible(call.cfg, docs[id])
    ensures id in Apply(docs, call) && Apply(docs, call)[id] == docs[id]
  {
    match call.op
    case OpUpdate(e, now) => ReplaceLeavesInvisible(call.cfg, docs, e, now, false, id);
    case OpUpsert(e, now) => ReplaceLeavesInvisible(call.cfg, docs, e, now, true, id);
    case OpDelete(e, now, later) => DeleteLeavesInvisible(call.cfg, docs, e, now, later, id);
    case _ =>
  }

  lemma ReplaceLeavesInvisible(cfg: Config, docs: Docs, e: Doc, now: int, upsert: bool, id: Val)
    requires id in docs && !Visible(cfg, docs[id])
    ensures var docs' := Replace(cfg, docs, e, now, upsert).docs; id in docs' && docs'[id] == docs[id]
  {
  }

  lemma DeleteLeavesInvisible(cfg: Config, docs: Docs, e: Doc, now: int, later: int, id: Val)
    requires id in docs && !Visible(cfg, docs[id])
    ensures var docs' := Delete(cfg, docs, e, now, later).docs; id in docs' && docs'[id] == docs[id]
  {
    if HidesDeleted(cfg) && cfg.user.Some? {
      ReplaceLeavesInvisible(cfg, docs, MarkDeleted(cfg, e, now), later, false, id);
    }
  }

  ghost predicate Run(states: seq<Docs>, calls: seq<Call>) {
    && |states| == |calls| + 1
    && forall k :: 0 <= k < |calls| ==> states[k + 1] == Apply(states[k], calls[k])
  }

  /** Soft delete is on in every call, and no upsert is made of an entity never created. */
  ghost predicate SoftDeleting(calls: seq<Call>) {
    forall k :: 0 <= k < |calls| ==> HidesDeleted(calls[k].cfg) && CreatedUpsert(calls[k])
  }

  predicate Tombstone(docs: Docs, id: Val) {
    id in docs && "deleted_at" in docs[id]
  }

  lemma TombstoneStep(docs: Docs, call: Call, id: Val)
    requires Tombstone(docs, id) && HidesDeleted(call.cfg) && CreatedUpsert(call)
    ensures Tombstone(Apply(docs, call), id)
    ensures !SkipsConditions(call) ==> Apply(docs, call)[id] == docs[id]
  {
    if !SkipsConditions(call) {
      InvisibleIsUntouched(docs, call, id);
    }
  }

  /**
    Tombstones are permanent: in any run, a deleted document is never removed and no call
    sees it again, not even after raw patches that skip the conditions; and without these
    it never changes at all.
  */
  lemma {:induction false} TombstonesArePermanent(states: seq<Docs>, calls: seq<Call>, a: nat, b: nat, id: Val,
                                                  cfg: Config)
    requires Run(states, calls) && SoftDeleting(calls)
    requires a <= b < |states| && Tombstone(states[a], id)
    ensures Tombstone(states[b], id)
    ensures HidesDeleted(cfg) ==> !Sees(cfg, states[b], id)
    ensures (forall k :: a <= k < b ==> !SkipsConditions(calls[k])) ==> states[b][id] == states[a][id]
    decreases b - a
  {
    if a < b {
      TombstonesArePermanent(states, calls, a, b - 1, id, cfg);
      assert HidesDeleted(calls[b - 1].cfg) && CreatedUpsert(calls[b - 1]);
      TombstoneStep(states[b - 1], calls[b - 1], id);
      assert states[b - 1 + 1] == Apply(states[b - 1], calls[b - 1]);
    }
  }

  /**
    An upsert filters on the id alone when the entity has no creation time, so it is the
    one entity operation that can replace a tombstone: it does exactly when its audit
    passes and the id is that of the tombstone.
  */
  lemma UncreatedUpsertReplacesTombstone(docs: Docs, cfg: Config, e: Doc, now: int, id: Val)
    requires Tombstone(docs, id) && HidesDeleted(cfg) && "deleted_at" !in e
    ensures Sees(cfg.(isolation := NoIsolation), Upsert(cfg, docs, e, now).docs, id)
            <==> Uncreated(cfg, e) && CreateAudit(cfg, e, now).1.None? && IdOf(e) == id
  {
    if !Uncreated(cfg, e) {
      InvisibleIsUntouched(docs, Call(cfg, OpUpsert(e, now)), id);
    }
  }

  /**
    A new document is visible to its creator exactly if it has no deletion time. An entity
    whose deletion time has a default other than None, such as zero, has one from the start.
  */
  lemma CreatedIsVisibleIff(cfg: Config, docs: Docs, e: Doc, now: int)
    requires Create(cfg, docs, e, now).error.None?
    ensures Sees(cfg, Create(cfg, docs, e, now).docs, IdOf(e)) <==> !(HidesDeleted(cfg) && "deleted_at" in e)
  {
    var e' := CreateAudit(cfg, e, now).0;
    assert "deleted_at" in e' <==> "deleted_at" in e;
  }

  /**
    A create audit that fails for lack of a tenant has set the creation time before, so
    the object is no longer one that was never created.
  */
  lemma FailedAuditCountsAsCreated(cfg: Config, docs: Docs, e: Doc, now: int)
    requires Uncreated(cfg, e) && IsTime(now) && cfg.user.Some?
    requires cfg.kind.tenant && (cfg.tenant.None? || cfg.app.None?)
    ensures var w := Upsert(cfg, docs, e, now);
            w.error == Some(NoContext) && w.docs == docs && !Uncreated(cfg, w.entity)
  {
  }

  /**
    Others who come between a replace that finds nothing and the look for a reason change
    the reason that is reported, but not whether the write succeeds or what it leaves.
  */
  lemma SeenOnlyExplains(cfg: Config, docs: Docs, seen: Docs, e: Doc, now: int, upsert: bool)
    ensures var w, w' := Replace(cfg, docs, e, now, upsert), ReplaceSeen(cfg, docs, seen, e, now, upsert);
            && w'.docs == w.docs && w'.entity == w.entity && (w'.error.None? <==> w.error.None?)
            && (w'.error != w.error ==> {w'.error, w.error} == {Some(Conflict), Some(NotFound)})
  {
  }

  /** A raw patch that fails half-way did what a patch of the documents that had their turn does. */
  lemma FailedPatchIsPatchOfDone(cfg: Config, docs: Docs, done: set<Val>, fields: Doc, skip: bool, now: int)
    requires done <= docs.Keys && (forall id :: id in done ==> skip || Visible(cfg, docs[id]))
    requires (skip || Scope(cfg).Ok?) && (cfg.kind.update ==> cfg.user.Some?)
    ensures var settable := set id | id in done && CanSet(docs[id], Stamp(cfg, fields, now));
            SetOn(docs, done, Stamp(cfg, fields, now)) == PatchRawMany(cfg, docs, settable, fields, skip, false, now).0
  {
    hide SetFields, Settable, CanSet;
    var settable := set id | id in done && CanSet(docs[id], Stamp(cfg, fields, now));
    assert Targets(cfg, docs, settable, skip) == settable;
  }

  // ---------- No lost update ----------

  /**
    A document a client has loaded: the entity's id, the version it carries, and as
    history the stored document as it was read or last written by this client.
  */
  datatype Copy = Copy(id: Val, version: Val, base: Doc)

  /** The store, the clients' copies and, as history, every time stamp used so far. */
  datatype State = State(docs: Docs, copies: map<nat, Copy>, used: set<int>)

  /**
    What clients do, each with a context and options of its own: load, write what they
    loaded (the four steps with a client and an entity), and everything else that the
    repository lets anybody do to the documents.
  */
  datatype Step =
    | Load(client: nat, cfg: Config, id: Val)
    | DoUpdate(client: nat, cfg: Config, e: Doc, now: int)
    | DoUpsert(client: nat, cfg: Config, e: Doc, now: int)
    | DoPatch(client: nat, cfg: Config, e: Doc, now: int, later: int)
    | DoDelete(client: nat, cfg: Config, e: Doc, now: int, later: int)
    | DoRemove(cfg: Config, e: Doc, now: int)
    | DoCreate(cfg: Config, e: Doc, now: int)
    | DoUpsertNew(cfg: Config, e: Doc, now: int)
    | DoBatchDelete(cfg: Config, picks: set<Val>, now: int)
    | DoPatchRaw(cfg: Config, picks: set<Val>, fields: Doc, skip: bool, locked: bool, now: int)

  predicate IsWrite(a: Step) {
    a.DoUpdate? || a.DoUpsert? || a.DoPatch? || a.DoDelete?
  }

  /** The client writes the entity it loaded: any fields may differ, id and version may not. */
  predicate WritesCopy(s: State, client: nat, e: Doc) {
    && client in s.copies
    && Get(e, "_id") == Some(s.copies[client].id)
    && Get(e, "updated_at") == Some(s.copies[client].version)
  }

  /** Time zero counts as no time. */
  predicate IsTime(now: int) {
    now != 0
  }

  /**
    The entity type stamps its updates. Soft delete, isolation and the other audits may be
    on or off, and differ between clients; times may repeat, and may go back.
  */
  predicate Enabled(s: State, a: Step) {
    && a.cfg.kind.update
    && (IsWrite(a) ==> WritesCopy(s, a.client, a.e) && (a.DoPatch? || IsTime(StampInEntity(a))))
    && match a
       case Load(_, cfg, id) => Sees(cfg, s.docs, id) && Truthy(Get(s.docs[id], "updated_at"))
       case DoUpdate(_, _, _, _) => true
       case DoUpsert(_, cfg, e, _) => !Uncreated(cfg, e)
       case DoPatch(_, _, _, now, later) => IsTime(now) && IsTime(later)
       case DoDelete(_, cfg, _, _, _) => HidesDeleted(cfg)
       case DoRemove(cfg, _, _) => !HidesDeleted(cfg)
       case DoUpsertNew(cfg, e, now) => Uncreated(cfg, e) && IsTime(now)
       case DoCreate(_, _, now) => IsTime(now)
       case DoBatchDelete(_, _, _) => true
       case DoPatchRaw(_, _, _, _, _, now) => IsTime(now)
  }

  /** The outcome of an entity write by the client of the step. */
  function Outcome(s: State, a: Step): Write
    requires IsWrite(a)
  {
    match a
    case DoUpdate(_, cfg, e, now) => Update(cfg, s.docs, e, now)
    case DoUpsert(_, cfg, e, now) => Upsert(cfg, s.docs, e, now)
    case DoPatch(_, cfg, e, now, later) => PatchEntity(cfg, s.docs, e, now, later)
    case DoDelete(_, cfg, e, now, later) => Delete(cfg, s.docs, e, now, later)
  }

  /** The stamp that an entity write leaves in the entity. */
  function StampInEntity(a: Step): int
    requires IsWrite(a)
  {
    if a.DoDelete? then a.later else a.now
  }

  predicate StampsStore(a: Step) {
    IsWrite(a) || a.DoCreate? || a.DoUpsertNew? || a.DoPatchRaw?
  }

  /** The stamp that a step leaves in the documents it writes. */
  function StampInStore(a: Step): int
    requires StampsStore(a)
  {
    if a.DoPatch? || a.DoDelete? then a.later else a.now
  }

  function Stamps(a: Step): set<int> {
    (if IsWrite(a) then {StampInEntity(a)} else {}) + (if StampsStore(a) then {StampInStore(a)} else {})
  }

  /** After a write the client's copy is the entity object as the call left it. */
  function Settle(s: State, client: nat, w: Write): State
    requires client in s.copies
  {
    var copy := s.copies[client];
    var version := if "updated_at" in w.entity then w.entity["updated_at"] else Null;
    var base := if w.error.None? && copy.id in w.docs then w.docs[copy.id] else copy.base;
    s.(docs := w.docs, copies := s.copies[client := Copy(copy.id, version, base)])
  }

  /** The store after a step. */
  function DocsAfter(s: State, a: Step): Docs {
    match a
    case Load(_, _, _) => s.docs
    case DoRemove(cfg, e, now) => Delete(cfg, s.docs, e, now, now).docs
    case DoCreate(cfg, e, now) => Create(cfg, s.docs, e, now).docs
    case DoUpsertNew(cfg, e, now) => Upsert(cfg, s.docs, e, now).docs
    case DoBatchDelete(cfg, picks, now) => BatchDelete(cfg, s.docs, picks, now).0
    case DoPatchRaw(cfg, picks, fields, skip, locked, now) =>
      PatchRawMany(cfg, s.docs, picks, fields, skip, locked, now).0
    case _ => Outcome(s, a).docs
  }

  function Next(s: State, a: Step): State
    requires Enabled(s, a)
  {
    var s' :=
      if a.Load? then s.(copies := s.copies[a.client := Copy(a.id, s.docs[a.id]["updated_at"], s.docs[a.id])])
      else if IsWrite(a) then Settle(s, a.client, Outcome(s, a))
      else s.(docs := DocsAfter(s, a));
    s'.(used := s.used + Stamps(a))
  }

  // ---------- When a step writes a document, and what ----------

  /** What the step stores under `id`, if it does. */
  function Stored(s: State, a: Step, id: Val): Doc
    requires Enabled(s, a) && a.cfg.user.Some?
  {
    match a
    case DoUpdate(_, cfg, e, now) => Stamp(cfg, e, now)
    case DoUpsert(_, cfg, e, now) => Stamp(cfg, e, now)
    case DoPatch(_, cfg, e, now, later) =>
      if id in s.docs then SetFields(s.docs[id], PatchPayload(cfg, Stamp(cfg, e, now), later)) else e
    case DoDelete(_, cfg, e, now, later) => Stamp(cfg, MarkDeleted(cfg, e, now), later)
    case DoCreate(cfg, e, now) => CreateAudit(cfg, e, now).0
    case DoUpsertNew(cfg, e, now) => CreateAudit(cfg, e, now).0
    case DoBatchDelete(cfg, _, now) => if id in s.docs then s.docs[id] + DeletionMarks(cfg, now) else map[]
    case DoPatchRaw(cfg, _, fields, _, _, now) =>
      if id in s.docs then SetFields(s.docs[id], Stamp(cfg, fields, now)) else map[]
    case _ => map[]
  }

  /** The client may see the document, and its write is one that the store can carry out and that changes it. */
  predicate Permitted(s: State, a: Step)
    requires Enabled(s, a) && IsWrite(a)
  {
    var id := s.copies[a.client].id;
    && a.cfg.user.Some? && Sees(a.cfg, s.docs, id)
    && (a.DoPatch? ==> CanSet(s.docs[id], PatchPayload(a.cfg, Stamp(a.cfg, a.e, a.now), a.later)))
    && Stored(s, a, id) != s.docs[id]
  }

  /** An upsert does not find its document: it stores it anew, whatever became of it. */
  predicate Reinserts(s: State, a: Step)
    requires Enabled(s, a) && IsWrite(a)
  {
    a.DoUpsert? && a.cfg.user.Some? && Scope(a.cfg).Ok? && s.copies[a.client].id !in s.docs
  }

  /** The step writes the document `id`, with its stamp. */
  predicate Writes(s: State, a: Step, id: Val)
    requires Enabled(s, a)
  {
    && a.cfg.user.Some?
    && match a
       case DoCreate(cfg, e, now) =>
         Truthy(Get(e, "_id")) && CreateAudit(cfg, e, now).1.None? && IdOf(e) == id && id !in s.docs
       case DoUpsertNew(cfg, e, now) => CreateAudit(cfg, e, now).1.None? && IdOf(e) == id
       case DoPatchRaw(cfg, picks, fields, skip, _, now) =>
         && (skip || Scope(cfg).Ok?) && id in Targets(cfg, s.docs, picks, skip)
         && forall t :: t in Targets(cfg, s.docs, picks, skip) ==> CanSet(s.docs[t], Stamp(cfg, fields, now))
       case Load(_, _, _) => false
       case DoRemove(_, _, _) => false
       case DoBatchDelete(_, _, _) => false
       case _ =>
         && s.copies[a.client].id == id
         && ((Permitted(s, a) && Current(s, s.copies[a.client])) || Reinserts(s, a))
  }

  /** The step marks the document `id` deleted and leaves its version as it is: only a bulk soft delete does. */
  predicate Marks(s: State, a: Step, id: Val) {
    && a.DoBatchDelete? && HidesDeleted(a.cfg) && a.cfg.user.Some? && Scope(a.cfg).Ok?
    && id in Selected(a.cfg, s.docs, a.picks)
  }

  /** What a step does to one document: it writes it, marks it, leaves it as it is, or removes it. */
  ghost predicate OneDocument(s: State, a: Step, id: Val)
    requires Enabled(s, a)
  {
    var docs' := DocsAfter(s, a);
    if Writes(s, a, id) then
      id in docs' && docs'[id] == Stored(s, a, id) && Get(docs'[id], "updated_at") == Some(Int(StampInStore(a)))
    else if Marks(s, a, id) then
      && id in docs' && docs'[id] == Stored(s, a, id) && "deleted_at" in docs'[id]
      && id in s.docs && Get(docs'[id], "updated_at") == Get(s.docs[id], "updated_at")
    else id in docs' ==> id in s.docs && docs'[id] == s.docs[id]
  }

  /**
    What an entity write does, for an entity that carries a version: it succeeds exactly
    on a permitted document that has this very version, or as a new insertion; it changes
    that document only; a failure changes nothing in the store; and the entity is stamped
    unless there is no user.
  */
  ghost predicate LockedWrite(s: State, a: Step)
    requires Enabled(s, a) && IsWrite(a)
  {
    var copy, w := s.copies[a.client], Outcome(s, a);
    && (w.error.None? <==> (Permitted(s, a) && Current(s, copy)) || Reinserts(s, a))
    && (w.error.None? ==> copy.id in w.docs && w.docs == s.docs[copy.id := w.docs[copy.id]])
    && (w.error.None? ==> w.docs[copy.id] == Stored(s, a, copy.id))
    && (w.error.None? ==> Get(w.docs[copy.id], "updated_at") == Some(Int(StampInStore(a))))
    && (w.error.Some? ==> w.docs == s.docs)
    && Get(w.entity, "updated_at") == Some(if a.cfg.user.Some? then Int(StampInEntity(a)) else copy.version)
  }

  lemma ReplaceLocks(s: State, a: Step)
    requires Inv(s) && Enabled(s, a) && (a.DoUpdate? || a.DoUpsert?)
    ensures LockedWrite(s, a)
  {
    hide SetFields, Settable, Scope;
    assert VersionOk(s, s.copies[a.client]);
  }

  lemma DeleteLocks(s: State, a: Step)
    requires Inv(s) && Enabled(s, a) && a.DoDelete?
    ensures LockedWrite(s, a)
  {
    hide SetFields, Settable, Scope;
    assert VersionOk(s, s.copies[a.client]);
  }

  lemma PatchLocks(s: State, a: Step)
    requires Inv(s) && Enabled(s, a) && a.DoPatch?
    ensures LockedWrite(s, a)
  {
    hide SetFields, Settable, Flatten, Scope, CanSet;
    var copy := s.copies[a.client];
    assert VersionOk(s, copy);
    if a.cfg.user.Some? && copy.id in s.docs {
      SetsVersion(a.cfg, s.docs[copy.id], Flatten(a.cfg.kind.shape, Stamp(a.cfg, a.e, a.now), ""), a.later);
    }
  }

  /** A stamped update sets the version. */
  lemma SetsVersion(cfg: Config, d: Doc, fields: Doc, now: int)
    requires cfg.kind.update && cfg.user.Some?
    ensures Get(SetFields(d, Stamp(cfg, fields, now)), "updated_at") == Some(Int(now))
  {
    var p := Stamp(cfg, fields, now);
    HeadOf("updated_at", "");
    assert p["updated_at"] == Int(now) && "updated_at" in Heads(p);
  }

  lemma WriteLocks(s: State, a: Step)
    requires Inv(s) && Enabled(s, a) && IsWrite(a)
    ensures LockedWrite(s, a)
  {
    match a
    case DoPatch(_, _, _, _, _) => PatchLocks(s, a);
    case DoDelete(_, _, _, _, _) => DeleteLocks(s, a);
    case _ => ReplaceLocks(s, a);
  }

  lemma StepOnDocument(s: State, a: Step, id: Val)
    requires Inv(s) && Enabled(s, a)
    ensures OneDocument(s, a, id)
  {
    match a
    case DoPatchRaw(_, _, _, _, _, _) => RawOnDocument(s, a, id);
    case DoBatchDelete(_, _, _) => BatchOnDocument(s, a, id);
    case DoCreate(_, _, _) => CreateOnDocument(s, a, id);
    case DoUpsertNew(_, _, _) => UpsertNewOnDocument(s, a, id);
    case Load(_, _, _) => RemoveOnDocument(s, a, id);
    case DoRemove(_, _, _) => RemoveOnDocument(s, a, id);
    case _ => WriteOnDocument(s, a, id);
  }

  lemma CreateOnDocument(s: State, a: Step, id: Val)
    requires Enabled(s, a) && a.DoCreate?
    ensures OneDocument(s, a, id)
  {
    hide SetFields, Settable, Scope, Uncreated;
  }

  lemma UpsertNewOnDocument(s: State, a: Step, id: Val)
    requires Enabled(s, a) && a.DoUpsertNew?
    ensures OneDocument(s, a, id)
  {
    hide SetFields, Settable, Scope, Uncreated;
  }

  lemma RemoveOnDocument(s: State, a: Step, id: Val)
    requires Enabled(s, a) && (a.Load? || a.DoRemove?)
    ensures OneDocument(s, a, id)
  {
    hide SetFields, Settable, Scope;
  }

  lemma WriteOnDocument(s: State, a: Step, id: Val)
    requires Inv(s) && Enabled(s, a) && IsWrite(a)
    ensures OneDocument(s, a, id)
  {
    hide Outcome, Stored, Permitted, Reinserts;
    WriteLocks(s, a);
    PermittedIsSeen(s, a);
  }

  lemma RawOnDocument(s: State, a: Step, id: Val)
    requires Enabled(s, a) && a.DoPatchRaw?
    ensures OneDocument(s, a, id)
  {
    hide SetFields, Settable, CanSet, Visible, Scope;
    if a.cfg.user.Some? && id in s.docs {
      SetsVersion(a.cfg, s.docs[id], a.fields, a.now);
    }
  }

  lemma BatchOnDocument(s: State, a: Step, id: Val)
    requires Enabled(s, a) && a.DoBatchDelete?
    ensures OneDocument(s, a, id)
  {
    hide SetFields, Settable, Visible, Scope;
    if a.cfg.user.Some? && id in s.docs {
      MarkSets(s.docs[id], DeletionMarks(a.cfg, a.now));
    }
  }

  lemma MarkSets(d: Doc, fields: Doc)
    requires fields.Keys == {"deleted_at", "deleted_by"}
    ensures CanSet(d, fields) && SetFields(d, fields) == d + fields
  {
    hide SetFields, Settable;
    assert forall k :: k in fields ==> DotFree(k);
    SetsTopKeys(d, fields);
  }

  // ---------- The invariant ----------

  predicate StampUsed(s: State, v: Option<Val>) {
    v.Some? && v.value.Int? ==> v.value.n in s.used
  }

  predicate VersionOk(s: State, copy: Copy) {
    StampUsed(s, Some(copy.version)) && Truthy(Some(copy.version))
  }

  /** Every version, stored or carried, is a stamp that was used; a copy always carries one. */
  ghost predicate Inv(s: State) {
    && (forall id :: id in s.docs ==> StampUsed(s, Get(s.docs[id], "updated_at")))
    && (forall c :: c in s.copies ==> VersionOk(s, s.copies[c]))
  }

  lemma InvStep(s: State, a: Step)
    requires Inv(s) && Enabled(s, a)
    ensures Inv(Next(s, a))
  {
    hide Outcome, Stored, Writes, Marks;
    var s' := Next(s, a);
    forall id | id in s'.docs
      ensures StampUsed(s', Get(s'.docs[id], "updated_at"))
    {
      StepOnDocument(s, a, id);
      StampsAreUsed(s, a, id);
    }
    forall c | c in s'.copies
      ensures VersionOk(s', s'.copies[c])
    {
      CarriedIsUsed(s, a, c);
    }
  }

  lemma StampsAreUsed(s: State, a: Step, id: Val)
    requires Inv(s) && Enabled(s, a) && OneDocument(s, a, id) && id in DocsAfter(s, a)
    ensures StampUsed(Next(s, a), Get(DocsAfter(s, a)[id], "updated_at"))
  {
    hide Outcome, Stored, Writes, Marks, DocsAfter;
    WritesAreStamped(s, a, id);
    assert StampsStore(a) ==> StampInStore(a) in Stamps(a);
    assert id in s.docs ==> StampUsed(s, Get(s.docs[id], "updated_at"));
  }

  lemma CarriedIsUsed(s: State, a: Step, c: nat)
    requires Inv(s) && Enabled(s, a) && c in Next(s, a).copies
    ensures VersionOk(Next(s, a), Next(s, a).copies[c])
  {
    hide Outcome, Stored, Permitted, Reinserts, DocsAfter;
    assert c in s.copies ==> VersionOk(s, s.copies[c]);
    if IsWrite(a) {
      WriteLocks(s, a);
      assert StampInEntity(a) in Stamps(a);
    }
    if a.Load? {
      assert StampUsed(s, Get(s.docs[a.id], "updated_at"));
    }
  }

  /** The stored document has the version that the copy carries. */
  predicate Current(s: State, copy: Copy) {
    copy.id in s.docs && Get(s.docs[copy.id], "updated_at") == Some(copy.version)
  }

  /** A write of the document may be permitted to a client: `hides` says that it does not see deleted ones. */
  predicate Exposed(d: Doc, hides: bool) {
    hides ==> "deleted_at" !in d
  }

  /** If a write of the copy would go through, the stored document is what the client read or last wrote. */
  predicate CopyOk(s: State, copy: Copy, hides: bool) {
    Current(s, copy) && Exposed(s.docs[copy.id], hides) ==> s.docs[copy.id] == copy.base
  }

  // ---------- When an update can be lost ----------

  /**
    The step clashes with the copy of client `c`, as the guards before it tell.
    A write clashes if it stores something else than the copy was read from, under the
    very version that the copy carries. A bulk soft delete, which leaves the version as it
    is, clashes with a current copy of a client that does not hide deleted documents. The
    client's own write clashes if its stamp, which the entity keeps when the write is
    refused, is the version of a stored document that the client has not read.
  */
  ghost predicate Clashes(s: State, a: Step, c: nat, hides: bool)
    requires Enabled(s, a) && c in s.copies
  {
    var copy, id := s.copies[c], s.copies[c].id;
    if a.Load? then false
    else if IsWrite(a) && a.client == c then
      && a.cfg.user.Some? && id in s.docs && s.docs[id] != copy.base && Exposed(s.docs[id], hides)
      && Get(s.docs[id], "updated_at") == Some(Int(StampInEntity(a)))
    else if Writes(s, a, id) then
      copy.version == Int(StampInStore(a)) && Stored(s, a, id) != copy.base && Exposed(Stored(s, a, id), hides)
    else
      Marks(s, a, id) && Current(s, copy) && Stored(s, a, id) != copy.base && !hides
  }

  /** A copy stays in order through a step exactly if the step does not clash with it. */
  lemma CopyStaysOkIff(s: State, a: Step, c: nat, hides: bool)
    requires Inv(s) && Enabled(s, a) && c in s.copies && CopyOk(s, s.copies[c], hides)
    ensures c in Next(s, a).copies
    ensures CopyOk(Next(s, a), Next(s, a).copies[c], hides) <==> !Clashes(s, a, c, hides)
  {
    hide Outcome, Stored, Permitted, Reinserts, DocsAfter;
    if IsWrite(a) && a.client == c {
      OwnWriteStaysOkIff(s, a, hides);
    } else {
      StepOnDocument(s, a, s.copies[c].id);
      DocsAreAfter(s, a);
    }
  }

  lemma DocsAreAfter(s: State, a: Step)
    requires Enabled(s, a)
    ensures Next(s, a).docs == DocsAfter(s, a)
    ensures forall c :: c in s.copies && !MovesClient(a, c) ==>
              c in Next(s, a).copies && Next(s, a).copies[c] == s.copies[c]
  {
    hide Outcome;
  }

  lemma OwnWriteStaysOkIff(s: State, a: Step, hides: bool)
    requires Inv(s) && Enabled(s, a) && IsWrite(a) && CopyOk(s, s.copies[a.client], hides)
    ensures a.client in Next(s, a).copies
    ensures CopyOk(Next(s, a), Next(s, a).copies[a.client], hides) <==> !Clashes(s, a, a.client, hides)
  {
    hide Outcome, Stored, Reinserts, Marks, Writes, Permitted;
    WriteLocks(s, a);
    PermittedIsSeen(s, a);
  }

  lemma PermittedIsSeen(s: State, a: Step)
    requires Enabled(s, a) && IsWrite(a)
    ensures Permitted(s, a) ==> a.cfg.user.Some? && Sees(a.cfg, s.docs, s.copies[a.client].id)
    ensures Reinserts(s, a) ==> a.cfg.user.Some? && s.copies[a.client].id !in s.docs
  {
  }

  /** Client `c` writes its copy with success over a document that it has neither read nor written. */
  ghost predicate Loses(s: State, b: Step, c: nat) {
    && Enabled(s, b) && IsWrite(b) && b.client == c && Outcome(s, b).error.None?
    && s.copies[c].id in s.docs && s.docs[s.copies[c].id] != s.copies[c].base
  }

  /**
    The optimistic lock fails exactly on a clash: after any step from a state in which the
    copy of `c` is in order, `c` can lose somebody's update if and only if the step
    clashed with its copy.
  */
  lemma LosesIffClashes(s: State, a: Step, c: nat, hides: bool)
    requires Inv(s) && Enabled(s, a) && c in s.copies && CopyOk(s, s.copies[c], hides)
    ensures (exists b :: Loses(Next(s, a), b, c) && (hides ==> HidesDeleted(b.cfg))) <==> Clashes(s, a, c, hides)
  {
    hide Next, Clashes, Inv;
    var s' := Next(s, a);
    InvStep(s, a);
    CopyStaysOkIff(s, a, c, hides);
    if Clashes(s, a, c, hides) {
      var b := SomePermitted(s', c, hides);
      EveryPermittedLoses(s', b, c);
      assert Loses(s', b, c) && (hides ==> HidesDeleted(b.cfg));
    } else {
      forall b
        ensures !(Loses(s', b, c) && (hides ==> HidesDeleted(b.cfg)))
      {
        NoneLoses(s', b, c, hides);
      }
    }
  }

  /**
    And after a clash nothing helps: whatever the context and the options of the client,
    and whatever it writes, each write that its configuration permits loses the update.
  */
  lemma ClashLosesEveryWrite(s: State, a: Step, b: Step, c: nat, hides: bool)
    requires Inv(s) && Enabled(s, a) && c in s.copies && CopyOk(s, s.copies[c], hides) && Clashes(s, a, c, hides)
    requires Enabled(Next(s, a), b) && IsWrite(b) && b.client == c
    ensures Loses(Next(s, a), b, c) <==> Permitted(Next(s, a), b)
  {
    hide Next, Clashes, Inv;
    InvStep(s, a);
    CopyStaysOkIff(s, a, c, hides);
    EveryPermittedLoses(Next(s, a), b, c);
  }

  lemma EveryPermittedLoses(s: State, b: Step, c: nat)
    requires Inv(s) && c in s.copies && Current(s, s.copies[c]) && s.docs[s.copies[c].id] != s.copies[c].base
    requires Enabled(s, b) && IsWrite(b) && b.client == c
    ensures Loses(s, b, c) <==> Permitted(s, b)
  {
    hide Outcome, Stored, Permitted;
    WriteLocks(s, b);
  }

  lemma NoneLoses(s: State, b: Step, c: nat, hides: bool)
    requires Inv(s) && c in s.copies && CopyOk(s, s.copies[c], hides)
    ensures !(Loses(s, b, c) && (hides ==> HidesDeleted(b.cfg)))
  {
    if Loses(s, b, c) && (hides ==> HidesDeleted(b.cfg)) {
      SuccessIsOnBase(s, b, hides);
    }
  }

  /** A copy with the stored version of an exposed document is permitted some write. */
  lemma SomePermitted(s: State, c: nat, hides: bool) returns (b: Step)
    requires Inv(s) && c in s.copies && Current(s, s.copies[c]) && Exposed(s.docs[s.copies[c].id], hides)
    ensures Enabled(s, b) && IsWrite(b) && b.client == c && Permitted(s, b) && HidesDeleted(b.cfg) == hides
  {
    var copy := s.copies[c];
    var now := if copy.version == Int(1) then 2 else 1;
    var cfg := Config(Kind(false, true, hides, false, Class([])), NoIsolation, true, Some("user"), None, None);
    var e := map["_id" := copy.id, "updated_at" := copy.version];
    assert Get(e, "_id") == Some(copy.id) && Get(e, "updated_at") == Some(copy.version);
    assert Scope(cfg) == Ok(None) && Visible(cfg, s.docs[copy.id]);
    assert Get(Stamp(cfg, e, now), "updated_at") == Some(Int(now)) != Get(s.docs[copy.id], "updated_at");
    b := DoUpdate(c, cfg, e, now);
  }

  /**
    A successful write of a copy in order acted on what its client had read or last
    written, and on nothing else, or it is an upsert that found no document.
  */
  lemma SuccessIsOnBase(s: State, b: Step, hides: bool)
    requires Inv(s) && Enabled(s, b) && IsWrite(b) && Outcome(s, b).error.None?
    requires CopyOk(s, s.copies[b.client], hides) && (hides ==> HidesDeleted(b.cfg))
    ensures ActedOnBase(s, b) || Reinserts(s, b)
  {
    hide Outcome, Stored, Reinserts;
    WriteLocks(s, b);
  }

  /** The write replaced what its client had read or last written by something else, and changed nothing else. */
  ghost predicate ActedOnBase(s: State, b: Step)
    requires Enabled(s, b) && IsWrite(b)
  {
    var copy, docs' := s.copies[b.client], Next(s, b).docs;
    && copy.id in s.docs && s.docs[copy.id] == copy.base
    && copy.id in docs' && docs' == s.docs[copy.id := docs'[copy.id]] && docs'[copy.id] != s.docs[copy.id]
  }

  /**
    The lock does not see a removal: an upsert of a created entity brings a removed
    document back exactly if there is a user and the context for the isolation.
  */
  lemma UpsertReinsertsIff(s: State, a: Step)
    requires Inv(s) && Enabled(s, a) && a.DoUpsert? && s.copies[a.client].id !in s.docs
    ensures s.copies[a.client].id in Next(s, a).docs <==> a.cfg.user.Some? && Scope(a.cfg).Ok?
  {
    hide Outcome, Stored, Permitted;
    WriteLocks(s, a);
  }

  /** The stamps of the step were never used before, neither in the store nor in an entity. */
  predicate FreshStamps(s: State, a: Step) {
    Stamps(a) !! s.used && (a.DoPatch? ==> a.now != a.later)
  }

  /** The step is no bulk soft delete, or the client does not see what one deletes. */
  predicate NoMarks(a: Step, hides: bool) {
    hides || !(a.DoBatchDelete? && HidesDeleted(a.cfg))
  }

  /** Distinct time stamps never clash. */
  lemma FreshNeverClashes(s: State, a: Step, c: nat, hides: bool)
    requires Inv(s) && Enabled(s, a) && c in s.copies && FreshStamps(s, a) && NoMarks(a, hides)
    ensures !Clashes(s, a, c, hides)
  {
    hide Stored, Outcome, Permitted, Reinserts;
    var id := s.copies[c].id;
    assert VersionOk(s, s.copies[c]);
    assert id in s.docs ==> StampUsed(s, Get(s.docs[id], "updated_at"));
    assert IsWrite(a) ==> StampInEntity(a) in Stamps(a);
    assert StampsStore(a) ==> StampInStore(a) in Stamps(a);
  }

  // ---------- Runs ----------

  ghost predicate ClientRun(ss: seq<State>, steps: seq<Step>) {
    && |ss| == |steps| + 1
    && forall k :: 0 <= k < |steps| ==> Enabled(ss[k], steps[k]) && ss[k + 1] == Next(ss[k], steps[k])
  }

  /** Nobody has loaded anything, and the stored versions count as used. */
  ghost predicate Init(s: State) {
    && s.copies == map[]
    && forall id :: id in s.docs ==> StampUsed(s, Get(s.docs[id], "updated_at"))
  }

  lemma {:induction false} InvRun(ss: seq<State>, steps: seq<Step>, k: nat)
    requires ClientRun(ss, steps) && Init(ss[0]) && k < |ss|
    ensures Inv(ss[k])
  {
    hide Next, Enabled;
    if k > 0 {
      InvRun(ss, steps, k - 1);
      assert Enabled(ss[k - 1], steps[k - 1]);
      InvStep(ss[k - 1], steps[k - 1]);
    }
  }

  /** From state `a` to state `k` no step clashed with the copy of client `c`. */
  ghost predicate NoClash(ss: seq<State>, steps: seq<Step>, a: nat, k: nat, c: nat, hides: bool)
    requires ClientRun(ss, steps) && k < |ss|
  {
    forall j {:trigger steps[j]} :: a <= j < k && c in ss[j].copies ==> !Clashes(ss[j], steps[j], c, hides)
  }

  lemma {:induction false} CopyOkRun(ss: seq<State>, steps: seq<Step>, a: nat, k: nat, c: nat, hides: bool)
    requires ClientRun(ss, steps) && Init(ss[0]) && a <= k < |ss| && NoClash(ss, steps, a, k, c, hides)
    requires c in ss[a].copies ==> CopyOk(ss[a], ss[a].copies[c], hides)
    ensures c in ss[k].copies ==> CopyOk(ss[k], ss[k].copies[c], hides)
    decreases k
  {
    hide Next, Enabled, Clashes, CopyOk, Inv, Init;
    if a < k {
      CopyOkRun(ss, steps, a, k - 1, c, hides);
      InvRun(ss, steps, k - 1);
      assert Enabled(ss[k - 1], steps[k - 1]) && ss[k - 1 + 1] == Next(ss[k - 1], steps[k - 1]);
      CopyOkStep(ss[k - 1], steps[k - 1], c, hides);
    }
  }

  lemma CopyOkStep(s: State, a: Step, c: nat, hides: bool)
    requires Inv(s) && Enabled(s, a)
    requires c in s.copies ==> CopyOk(s, s.copies[c], hides) && !Clashes(s, a, c, hides)
    ensures c in Next(s, a).copies ==> CopyOk(Next(s, a), Next(s, a).copies[c], hides)
  {
    hide Clashes, Outcome;
    if c in s.copies {
      CopyStaysOkIff(s, a, c, hides);
    }
  }

  /**
    No lost update, with any time stamps, for entity types with or without soft delete: in
    every run, if no step clashed with the copy of a client, its successful update, upsert,
    patch or soft delete acted on exactly the stored document that it had read or last
    written, changed it, and changed no other document; only an upsert may instead find
    that there is no document.
  */
  lemma NoLostUpdate(ss: seq<State>, steps: seq<Step>, k: nat)
    requires ClientRun(ss, steps) && Init(ss[0])
    requires k < |steps| && IsWrite(steps[k]) && Outcome(ss[k], steps[k]).error.None?
    requires NoClash(ss, steps, 0, k, steps[k].client, HidesDeleted(steps[k].cfg))
    ensures ActedOnBase(ss[k], steps[k]) || Reinserts(ss[k], steps[k])
  {
    hide Outcome, Next, Inv, Init, ActedOnBase, Reinserts;
    InvRun(ss, steps, k);
    assert Enabled(ss[k], steps[k]);
    NobodyLoaded(ss[0], steps[k].client);
    CopyOkRun(ss, steps, 0, k, steps[k].client, HidesDeleted(steps[k].cfg));
    SuccessIsOnBase(ss[k], steps[k], HidesDeleted(steps[k].cfg));
  }

  lemma NobodyLoaded(s: State, c: nat)
    requires Init(s)
    ensures c !in s.copies
  {
  }

  /** So no update is lost in a run with distinct time stamps. */
  lemma DistinctStampsNeverClash(ss: seq<State>, steps: seq<Step>, k: nat, c: nat, hides: bool)
    requires ClientRun(ss, steps) && Init(ss[0]) && k < |ss|
    requires forall j :: 0 <= j < k ==> FreshStamps(ss[j], steps[j]) && NoMarks(steps[j], hides)
    ensures NoClash(ss, steps, 0, k, c, hides)
  {
    hide Next, Clashes, Inv, Init, FreshStamps, NoMarks;
    forall j | 0 <= j < k && c in ss[j].copies
      ensures !Clashes(ss[j], steps[j], c, hides)
    {
      InvRun(ss, steps, j);
      assert Enabled(ss[j], steps[j]) && FreshStamps(ss[j], steps[j]) && NoMarks(steps[j], hides);
      FreshNeverClashes(ss[j], steps[j], c, hides);
    }
  }

  predicate MovesClient(a: Step, client: nat) {
    (a.Load? || IsWrite(a)) && a.client == client
  }

  /** Between a load and the client's next move its copy is what the load read. */
  lemma {:induction false} CopyIsKept(ss: seq<State>, steps: seq<Step>, a: nat, b: nat, client: nat)
    requires ClientRun(ss, steps) && a < b < |ss| && steps[a].Load? && steps[a].client == client
    requires forall k :: a < k < b ==> !MovesClient(steps[k], client)
    ensures client in ss[b].copies && steps[a].id in ss[a].docs
    ensures ss[b].copies[client].id == steps[a].id && ss[b].copies[client].base == ss[a].docs[steps[a].id]
    ensures b == a + 1 ==> ss[b].docs == ss[a].docs
    decreases b
  {
    hide Outcome, DocsAfter;
    assert Enabled(ss[b - 1], steps[b - 1]) && ss[b - 1 + 1] == Next(ss[b - 1], steps[b - 1]);
    if a < b - 1 {
      CopyIsKept(ss, steps, a, b - 1, client);
    }
  }

  /**
    Read, then write: if the write goes through, and no step in between clashed with the
    copy, the document still was the one that was read, or it is an upsert that found none.
  */
  lemma ReadThenWrite(ss: seq<State>, steps: seq<Step>, a: nat, k: nat)
    requires ClientRun(ss, steps) && Init(ss[0])
    requires a < k < |steps| && steps[a].Load? && IsWrite(steps[k]) && steps[a].client == steps[k].client
    requires forall j :: a < j < k ==> !MovesClient(steps[j], steps[k].client)
    requires NoClash(ss, steps, a + 1, k, steps[k].client, HidesDeleted(steps[k].cfg))
    requires Outcome(ss[k], steps[k]).error.None?
    ensures var id := steps[a].id;
            && id in ss[a].docs
            && ((id in ss[k].docs && ss[k].docs[id] == ss[a].docs[id]) || Reinserts(ss[k], steps[k]))
  {
    hide Outcome, Next, Inv, Init, Reinserts, Clashes;
    var hides := HidesDeleted(steps[k].cfg);
    CopyIsKept(ss, steps, a, a + 1, steps[k].client);
    CopyIsKept(ss, steps, a, k, steps[k].client);
    CopyOkRun(ss, steps, a + 1, k, steps[k].client, hides);
    InvRun(ss, steps, k);
    assert Enabled(ss[k], steps[k]);
    SuccessIsOnBase(ss[k], steps[k], hides);
  }

  // ---------- Staleness ----------

  /** The client's copy is not the stored version. */
  predicate Stale(s: State, client: nat) {
    client in s.copies && !Current(s, s.copies[client])
  }

  /**
    After a step by somebody else, a copy has the stored version exactly if the step wrote
    the document with this very version as its stamp, or neither wrote nor removed it and
    the copy had the stored version before.
  */
  lemma CurrentAfterIff(s: State, a: Step, c: nat)
    requires Inv(s) && Enabled(s, a) && c in s.copies && !MovesClient(a, c)
    ensures var copy, s' := s.copies[c], Next(s, a);
            c in s'.copies && s'.copies[c] == copy
            && (Current(s', copy) <==>
                if Writes(s, a, copy.id) then copy.version == Int(StampInStore(a))
                else Current(s, copy) && copy.id in s'.docs)
  {
    hide Outcome, Stored, Permitted, Reinserts, DocsAfter, Writes, Marks;
    StepOnDocument(s, a, s.copies[c].id);
    DocsAreAfter(s, a);
  }

  /** A successful write makes every other copy of the document stale, but for one that carries its stamp. */
  lemma WriteMakesOthersStale(s: State, a: Step, other: nat)
    requires Inv(s) && Enabled(s, a) && IsWrite(a) && Outcome(s, a).error.None?
    requires other in s.copies && other != a.client && s.copies[other].id == s.copies[a.client].id
    ensures Stale(Next(s, a), other) <==> s.copies[other].version != Int(StampInStore(a))
  {
    hide Outcome, Stored, DocsAfter;
    WriteLocks(s, a);
    CurrentAfterIff(s, a, other);
  }

  /**
    After its own successful write an object is stale exactly if the write stamped the
    store otherwise than the object; only a patch does.
  */
  lemma PatchedObjectIsStale(s: State, a: Step)
    requires Inv(s) && Enabled(s, a) && IsWrite(a) && Outcome(s, a).error.None?
    ensures Stale(Next(s, a), a.client) <==> a.DoPatch? && a.now != a.later
  {
    hide Outcome, Stored, Scope, Visible, CanSet;
    WriteLocks(s, a);
  }

  lemma StaleStep(s: State, a: Step, client: nat)
    requires Inv(s) && Enabled(s, a) && Stale(s, client)
    ensures IsWrite(a) && a.client == client ==> Outcome(s, a).error.Some? || Reinserts(s, a)
    ensures FreshStamps(s, a) && !Refreshes(s, a, client) ==> Stale(Next(s, a), client)
  {
    hide Outcome, Stored, Permitted, Writes, Marks, DocsAfter;
    var id := s.copies[client].id;
    assert VersionOk(s, s.copies[client]);
    assert id in s.docs ==> StampUsed(s, Get(s.docs[id], "updated_at"));
    if IsWrite(a) {
      WriteLocks(s, a);
      assert StampInEntity(a) in Stamps(a) && StampInStore(a) in Stamps(a);
    }
    if !MovesClient(a, client) {
      CurrentAfterIff(s, a, client);
      assert StampsStore(a) ==> StampInStore(a) in Stamps(a);
      WritesAreStamped(s, a, id);
    }
  }

  lemma WritesAreStamped(s: State, a: Step, id: Val)
    requires Enabled(s, a)
    ensures Writes(s, a, id) ==> StampsStore(a)
  {
  }

  /** The client gets a new copy: it loads, or its upsert finds no document. */
  predicate Refreshes(s: State, a: Step, client: nat)
    requires Enabled(s, a)
  {
    MovesClient(a, client) && (a.Load? || Reinserts(s, a))
  }

  /**
    Every write of a stale copy fails, but for an upsert that finds no document; and as
    long as stamps are distinct, it stays stale until the client gets a new copy.
  */
  lemma {:induction false} StaleUntilReloaded(ss: seq<State>, steps: seq<Step>, a: nat, b: nat, client: nat)
    requires ClientRun(ss, steps) && Init(ss[0])
    requires a <= b < |steps| && Stale(ss[a], client)
    requires forall k :: a <= k < b ==> FreshStamps(ss[k], steps[k]) && !Refreshes(ss[k], steps[k], client)
    ensures Stale(ss[b], client)
    ensures IsWrite(steps[b]) && steps[b].client == client ==>
              Outcome(ss[b], steps[b]).error.Some? || Reinserts(ss[b], steps[b])
    decreases b
  {
    hide Next, Enabled, Stale, FreshStamps, Outcome, Inv, Init, Reinserts, Refreshes;
    if a < b {
      StaleUntilReloaded(ss, steps, a, b - 1, client);
      InvRun(ss, steps, b - 1);
      assert Enabled(ss[b - 1], steps[b - 1]) && ss[b - 1 + 1] == Next(ss[b - 1], steps[b - 1]);
      StaleStep(ss[b - 1], steps[b - 1], client);
    }
    InvRun(ss, steps, b);
    assert Enabled(ss[b], steps[b]);
    StaleStep(ss[b], steps[b], client);
  }

  /**
    A clash: two updates of one loaded version with its very stamp, or any other one
    after it, both succeed, and the first is gone.
  */
  lemma EqualStampLosesUpdate(cfg: Config, id: Val, mine: int, theirs: int)
      returns (docs: Docs, first: Doc, second: Doc)
    requires cfg.kind.update && !cfg.kind.tenant && !cfg.kind.create && cfg.user.Some? && mine != theirs
    ensures id in docs
    ensures LoadedVersion(cfg, first) == LoadedVersion(cfg, second) == Get(docs[id], "updated_at")
    ensures var loaded := docs[id];
            && (var w1 := Update(cfg, docs, first, 5);
                var w2 := Update(cfg, w1.docs, second, 6);
                && w1.error.None? && w2.error.None?
                && id in w1.docs && Get(w1.docs[id], "body") == Some(Int(mine)) && w1.docs[id] != loaded
                && id in w2.docs && Get(w2.docs[id], "body") == Some(Int(theirs)))
  {
    var loaded := map["_id" := id, "updated_at" := Int(5)];
    docs := map[id := loaded];
    first, second := loaded["body" := Int(mine)], loaded["body" := Int(theirs)];
    assert Get(first, "updated_at") == Some(Int(5)) && Get(second, "updated_at") == Some(Int(5));
    assert Truthy(Some(Int(5))) && LoadedVersion(cfg, first) == Some(Int(5)) == LoadedVersion(cfg, second);
    var w1 := Update(cfg, docs, first, 5);
    assert Scope(cfg) == Ok(None) && IdOf(first) == id == IdOf(second);
    assert docs[id] != Stamp(cfg, first, 5) by {
      assert "body" !in docs[id];
    }
    assert w1.docs == docs[id := Stamp(cfg, first, 5)];
    assert Get(w1.docs[id], "updated_at") == Some(Int(5)) && Get(Stamp(cfg, second, 6), "updated_at") == Some(Int(6));
    var w2 := Update(cfg, w1.docs, second, 6);
    assert w2.docs == w1.docs[id := Stamp(cfg, second, 6)];
  }
}
