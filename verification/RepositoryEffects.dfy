/**
  What each operation leaves in the store, said of the documents themselves: when it
  succeeds, which fields it sets to what, and who sees the result.
*/
module RepositoryEffects {
  import opened Wrappers
  import opened Codec
  import opened DottedKeys
  import opened DottedSet
  import opened Patch
  import opened RepositorySpec

  /** A value that is there and does not count as empty: neither None, zero nor the empty text. */
  ghost predicate Given(v: Option<Val>) {
    v.Some? && v.value != Null && v.value != Int(0) && v.value != Str("")
  }

  /** The context has what the filters of the isolation need. */
  ghost predicate CanFilter(cfg: Config) {
    && (cfg.isolation == ByUser && cfg.kind.create ==> cfg.user.Some?)
    && (cfg.isolation == ByTenant && cfg.kind.tenant ==> cfg.tenant.Some?)
    && (cfg.isolation == ByApp && cfg.kind.tenant ==> cfg.app.Some?)
  }

  /** The context has what the stamps of a new entity need. */
  ghost predicate CanStampNew(cfg: Config) {
    && (cfg.kind.create || cfg.kind.update ==> cfg.user.Some?)
    && (cfg.kind.tenant ==> cfg.tenant.Some? && cfg.app.Some?)
  }

  ghost predicate CanStampUpdate(cfg: Config) {
    cfg.kind.update ==> cfg.user.Some?
  }

  /** The fields of a new entity that the repository sets. */
  ghost function NewFields(cfg: Config, now: int): Doc
    requires CanStampNew(cfg)
  {
    OwnFields(cfg, now) + PlaceFields(cfg) + UpdateFields(cfg, now)
  }

  ghost function OwnFields(cfg: Config, now: int): Doc
    requires cfg.kind.create ==> cfg.user.Some?
  {
    if cfg.kind.create then map["created_by" := Str(cfg.user.value), "created_at" := Int(now)] else map[]
  }

  ghost function PlaceFields(cfg: Config): Doc
    requires cfg.kind.tenant ==> cfg.tenant.Some? && cfg.app.Some?
  {
    if cfg.kind.tenant then map["tenant_id" := Str(cfg.tenant.value), "app_id" := Str(cfg.app.value)] else map[]
  }

  ghost function UpdateFields(cfg: Config, now: int): Doc
    requires CanStampUpdate(cfg)
  {
    if cfg.kind.update then map["updated_by" := Str(cfg.user.value), "updated_at" := Int(now)] else map[]
  }

  // ---------- New entities ----------

  lemma AuditEffect(cfg: Config, e: Doc, now: int)
    ensures CreateAudit(cfg, e, now).1 == if CanStampNew(cfg) then None else Some(NoContext)
    ensures CanStampNew(cfg) ==> CreateAudit(cfg, e, now).0 == e + NewFields(cfg, now)
  {
    hide Stamp, UpdateFields;
    if CanStampNew(cfg) {
      var own, place := OwnFields(cfg, now), PlaceFields(cfg);
      var e1 := if cfg.kind.create then e["created_by" := Str(cfg.user.value)]["created_at" := Int(now)] else e;
      assert e1 == e + own;
      var e2 :=
        if cfg.kind.tenant then e1["tenant_id" := Str(cfg.tenant.value)]["app_id" := Str(cfg.app.value)] else e1;
      assert e2 == e1 + place;
      UpdateStamp(cfg, e2, now);
      Regrouped(e, own, place, UpdateFields(cfg, now));
    }
  }

  lemma UpdateStamp(cfg: Config, e: Doc, now: int)
    requires CanStampUpdate(cfg)
    ensures Stamp(cfg, e, now) == e + UpdateFields(cfg, now)
  {
  }

  lemma Regrouped(a: Doc, b: Doc, c: Doc, d: Doc)
    ensures a + b + c + d == a + (b + c + d)
  {
  }

  /** A create goes through exactly for a given id that is not taken, with the context for the stamps. */
  lemma CreateEffect(cfg: Config, docs: Docs, e: Doc, now: int)
    ensures var w := Create(cfg, docs, e, now);
            && (w.error.None? <==> Given(Get(e, "_id")) && CanStampNew(cfg) && e["_id"] !in docs)
            && (w.error.None? ==> w.docs == docs[e["_id"] := e + NewFields(cfg, now)])
            && (w.error.Some? ==> w.docs == docs)
            && (w.error == Some(EmptyId) <==> !Given(Get(e, "_id")))
            && (w.error == Some(Conflict) <==> Given(Get(e, "_id")) && CanStampNew(cfg) && e["_id"] in docs)
  {
    hide CreateAudit, CanStampNew, NewFields;
    AuditEffect(cfg, e, now);
  }

  /**
    Isolation: what one caller creates another one sees exactly if it is of the same user,
    tenant or app, as far as its isolation asks, and if, with soft delete on, the entity
    carries no deletion time.
  */
  lemma OwnersSee(cfg: Config, docs: Docs, e: Doc, now: int, reader: Config)
    requires Create(cfg, docs, e, now).error.None? && reader.kind == cfg.kind
    ensures Sees(reader, Create(cfg, docs, e, now).docs, IdOf(e)) <==>
            && (reader.softDelete && reader.kind.delete ==> "deleted_at" !in e)
            && (reader.isolation == ByUser && reader.kind.create ==> reader.user == cfg.user)
            && (reader.isolation == ByTenant && reader.kind.tenant ==> reader.tenant == cfg.tenant)
            && (reader.isolation == ByApp && reader.kind.tenant ==> reader.app == cfg.app)
  {
    hide Create, CreateAudit, NewFields;
    CreateEffect(cfg, docs, e, now);
    OwnersFields(cfg, e, now);
  }

  lemma OwnersFields(cfg: Config, e: Doc, now: int)
    requires CanStampNew(cfg)
    ensures var d := e + NewFields(cfg, now);
            && (cfg.kind.create ==> Get(d, "created_by") == Some(Str(cfg.user.value)))
            && (cfg.kind.tenant ==> Get(d, "tenant_id") == Some(Str(cfg.tenant.value)))
            && (cfg.kind.tenant ==> Get(d, "app_id") == Some(Str(cfg.app.value)))
            && ("deleted_at" in d <==> "deleted_at" in e)
  {
  }

  // ---------- Entities that were loaded ----------

  /** The entity carries a version. */
  ghost predicate Versioned(cfg: Config, e: Doc) {
    cfg.kind.update && Given(Get(e, "updated_at"))
  }

  /** The stored document is visible and has the version that the entity carries, if it carries one. */
  ghost predicate Finds(cfg: Config, docs: Docs, e: Doc)
    requires "_id" in e
  {
    && Sees(cfg, docs, e["_id"])
    && (Versioned(cfg, e) ==> Get(docs[e["_id"]], "updated_at") == Get(e, "updated_at"))
  }

  /**
    An update goes through exactly on a visible document of the entity's version, unless
    the version was to change and nothing would; the document becomes the entity with its
    stamps. A failure changes nothing and tells a missing context, a document that cannot
    be seen, and one that changed apart.
  */
  lemma UpdateEffect(cfg: Config, docs: Docs, e: Doc, now: int)
    requires "_id" in e
    ensures var w, id := Update(cfg, docs, e, now), e["_id"];
            && (w.error.None? <==> CanStampUpdate(cfg) && Finds(cfg, docs, e)
                                   && (Versioned(cfg, e) ==> docs[id] != e + UpdateFields(cfg, now)))
            && (w.error.None? ==> w.docs == docs[id := e + UpdateFields(cfg, now)])
            && (w.error.Some? ==> w.docs == docs)
            && (w.error == Some(NoContext) <==> !CanStampUpdate(cfg) || !CanFilter(cfg))
            && (w.error == Some(NotFound) <==> CanStampUpdate(cfg) && CanFilter(cfg) && !Sees(cfg, docs, id))
  {
    if CanStampUpdate(cfg) {
      UpdateStamp(cfg, e, now);
    }
  }

  /** An upsert of an entity that was never created stores it as a new one, whatever is there. */
  lemma UpsertNewEffect(cfg: Config, docs: Docs, e: Doc, now: int)
    requires "_id" in e && cfg.kind.create && !Given(Get(e, "created_at"))
    ensures var w := Upsert(cfg, docs, e, now);
            && (w.error.None? <==> CanStampNew(cfg))
            && w.docs == (if w.error.None? then docs[e["_id"] := e + NewFields(cfg, now)] else docs)
  {
    hide CreateAudit, CanStampNew, NewFields;
    AuditEffect(cfg, e, now);
  }

  /** Any other upsert goes like an update, but stores an entity whose document does not exist. */
  lemma UpsertEffect(cfg: Config, docs: Docs, e: Doc, now: int)
    requires "_id" in e && (cfg.kind.create ==> Given(Get(e, "created_at")))
    ensures var w, id := Upsert(cfg, docs, e, now), e["_id"];
            && (w.error.None? <==>
                  if id in docs then Update(cfg, docs, e, now).error.None? else CanStampUpdate(cfg) && CanFilter(cfg))
            && (w.error.None? ==> w.docs == docs[id := e + UpdateFields(cfg, now)])
            && (w.error.Some? ==> w.docs == docs)
            && (w.error == Some(NoContext) <==> !CanStampUpdate(cfg) || !CanFilter(cfg))
            && (w.error.Some? ==> w.error == Some(NoContext) || w.error == Some(Conflict))
  {
    hide Visible, Fresh;
    if CanStampUpdate(cfg) {
      UpdateStamp(cfg, e, now);
    }
  }

  /**
    A patch of an entity goes through exactly on a visible document of its version that
    the store can carry it out on and that it changes; it sets the dotted keys of the
    stamped entity and then the later stamp.
  */
  lemma PatchEffect(cfg: Config, docs: Docs, e: Doc, now: int, later: int)
    requires "_id" in e && CanStampUpdate(cfg)
    ensures var w, id := PatchEntity(cfg, docs, e, now, later), e["_id"];
            var fields := Flatten(cfg.kind.shape, e + UpdateFields(cfg, now), "") + UpdateFields(cfg, later);
            && (w.error.Some? ==> w.docs == docs)
            && (w.error.None? <==>
                  && Finds(cfg, docs, e) && Settable(docs[id], fields)
                  && Get(SetFields(docs[id], fields), "_id") == Get(docs[id], "_id")
                  && (Versioned(cfg, e) ==> docs[id] != SetFields(docs[id], fields)))
            && (w.error.None? ==> w.docs == docs[id := SetFields(docs[id], fields)])
            && (w.error == Some(NoContext) <==> !CanFilter(cfg))
            && (w.error == Some(NotFound) <==> CanFilter(cfg) && !Finds(cfg, docs, e))
  {
    hide SetFields, Settable, FlattenFields;
    var flat := Flatten(cfg.kind.shape, e + UpdateFields(cfg, now), "");
    UpdateStamp(cfg, e, now);
    UpdateStamp(cfg, flat, later);
  }

  // ---------- Deleting ----------

  /**
    A soft delete that goes through leaves the document there, with the time and the user
    of the deletion and the stamped entity otherwise, and nobody who hides deleted
    documents sees it any more.
  */
  lemma SoftDeleteEffect(cfg: Config, docs: Docs, e: Doc, now: int, later: int, reader: Config)
    requires "_id" in e && cfg.softDelete && cfg.kind.delete && Delete(cfg, docs, e, now, later).error.None?
    ensures var docs', id := Delete(cfg, docs, e, now, later).docs, e["_id"];
            && cfg.user.Some? && id in docs && id in docs'
            && docs' == docs[id := e + map["deleted_at" := Int(now), "deleted_by" := Str(cfg.user.value)]
                                   + UpdateFields(cfg, later)]
            && (reader.softDelete && reader.kind.delete ==> !Sees(reader, docs', id))
  {
    var marked := e + map["deleted_at" := Int(now), "deleted_by" := Str(cfg.user.value)];
    assert MarkDeleted(cfg, e, now) == marked;
    UpdateEffect(cfg, docs, marked, later);
  }

  /** It goes through exactly on a visible document of the entity's version. */
  lemma SoftDeletesIff(cfg: Config, docs: Docs, e: Doc, now: int, later: int)
    requires "_id" in e && cfg.softDelete && cfg.kind.delete
    ensures var w := Delete(cfg, docs, e, now, later);
            && (w.error.Some? ==> w.docs == docs)
            && (w.error.None? <==> cfg.user.Some? && Finds(cfg, docs, e))
            && (w.error == Some(NotFound) <==> cfg.user.Some? && CanFilter(cfg) && !Sees(cfg, docs, e["_id"]))
  {
    if cfg.user.Some? {
      var marked := e + map["deleted_at" := Int(now), "deleted_by" := Str(cfg.user.value)];
      assert MarkDeleted(cfg, e, now) == marked;
      assert Get(marked, "updated_at") == Get(e, "updated_at");
      UpdateEffect(cfg, docs, marked, later);
      assert Finds(cfg, docs, marked) <==> Finds(cfg, docs, e);
      assert "deleted_at" in marked + UpdateFields(cfg, later);
    }
  }

  /** Without soft delete a delete removes the document, of whatever version, exactly if the caller sees it. */
  lemma RemoveEffect(cfg: Config, docs: Docs, e: Doc, now: int, later: int)
    requires "_id" in e && !(cfg.softDelete && cfg.kind.delete)
    ensures var w := Delete(cfg, docs, e, now, later);
            && (w.error.None? <==> (cfg.kind.delete ==> cfg.user.Some?) && Sees(cfg, docs, e["_id"]))
            && w.docs == (if w.error.None? then docs - {e["_id"]} else docs)
            && (w.error == Some(NotFound) <==>
                  (cfg.kind.delete ==> cfg.user.Some?) && CanFilter(cfg) && !Sees(cfg, docs, e["_id"]))
  {
  }

  lemma MarksAreSet(cfg: Config, d: Doc, now: int)
    requires cfg.user.Some?
    ensures CanSet(d, DeletionMarks(cfg, now))
    ensures SetFields(d, DeletionMarks(cfg, now)) == d + DeletionMarks(cfg, now)
  {
    hide SetFields, Settable;
    assert forall k :: k in DeletionMarks(cfg, now) ==> DotFree(k);
    SetsTopKeys(d, DeletionMarks(cfg, now));
  }

  /** A bulk delete marks, or removes, exactly the visible documents that were picked. */
  lemma BatchDeleteEffect(cfg: Config, docs: Docs, picks: set<Val>, now: int)
    ensures var (docs', error) := BatchDelete(cfg, docs, picks, now);
            var soft := cfg.softDelete && cfg.kind.delete;
            && (error.None? <==> (soft ==> cfg.user.Some?) && exists id :: id in picks && Sees(cfg, docs, id))
            && (error.Some? ==> docs' == docs)
            && (error == Some(NotFound) <==>
                  (soft ==> cfg.user.Some?) && CanFilter(cfg) && !exists id :: id in picks && Sees(cfg, docs, id))
            && (error.None? ==> forall id :: id in docs ==>
                  if !(id in picks && Sees(cfg, docs, id)) then id in docs' && docs'[id] == docs[id]
                  else if soft then id in docs' && docs'[id] ==
                         docs[id] + map["deleted_at" := Int(now), "deleted_by" := Str(cfg.user.value)]
                  else id !in docs')
            && (forall id :: id in docs' ==> id in docs)
  {
    hide SetFields, Settable, CanSet;
    if cfg.user.Some? {
      forall id | id in docs
        ensures CanSet(docs[id], DeletionMarks(cfg, now))
        ensures SetFields(docs[id], DeletionMarks(cfg, now)) == docs[id] + DeletionMarks(cfg, now)
      {
        MarksAreSet(cfg, docs[id], now);
      }
    }
    assert (exists id :: id in picks && Sees(cfg, docs, id)) <==> Selected(cfg, docs, picks) != {} by {
      if id :| id in picks && Sees(cfg, docs, id) {
        assert id in Selected(cfg, docs, picks);
      }
    }
  }

  // ---------- Raw patches ----------

  /**
    A raw patch sets the given dotted keys, and the stamp, on exactly the documents that
    were picked, all of them or only the visible ones.
  */
  lemma PatchRawEffect(cfg: Config, docs: Docs, picks: set<Val>, fields: Doc, skip: bool, locked: bool, now: int)
    requires CanStampUpdate(cfg)
    ensures var (docs', error) := PatchRawMany(cfg, docs, picks, fields, skip, locked, now);
            var sent := fields + UpdateFields(cfg, now);
            var chosen := set id | id in docs && id in picks && (skip || Sees(cfg, docs, id));
            && (error == Some(NoContext) <==> !skip && !CanFilter(cfg))
            && (error == Some(NotFound) <==> (skip || CanFilter(cfg)) && chosen == {})
            && (error == Some(WriteFailed) ==> docs' == docs)
            && (error == Some(Conflict) ==> locked && docs' == docs)
            && (error.None? || error == Some(Conflict) ==>
                  && docs'.Keys == docs.Keys
                  && forall id :: id in docs ==>
                       if id in chosen then Settable(docs[id], sent) && docs'[id] == SetFields(docs[id], sent)
                       else docs'[id] == docs[id])
            && (error.None? && locked ==> docs' != docs)
  {
    hide SetFields, Settable;
    var sent := fields + UpdateFields(cfg, now);
    UpdateStamp(cfg, fields, now);
    var chosen := set id | id in docs && id in picks && (skip || Sees(cfg, docs, id));
    if skip || CanFilter(cfg) {
      assert Targets(cfg, docs, picks, skip) == chosen;
    }
  }

  // ---------- The entity object ----------

  /** How far the stamps of a new entity get: its creator, its tenant and app, its update, in this order. */
  ghost function AsFarAsStamped(cfg: Config, e: Doc, now: int): Doc {
    if cfg.kind.create && cfg.user.None? then e
    else if cfg.kind.tenant && !(cfg.tenant.Some? && cfg.app.Some?) then e + OwnFields(cfg, now)
    else if cfg.kind.update && cfg.user.None? then e + PlaceFields(cfg)
    else e + NewFields(cfg, now)
  }

  /** A create, or an upsert of an entity never created, leaves the entity as far as it was stamped. */
  lemma CreatedEntity(cfg: Config, docs: Docs, e: Doc, now: int)
    ensures Create(cfg, docs, e, now).entity == if Given(Get(e, "_id")) then AsFarAsStamped(cfg, e, now) else e
    ensures cfg.kind.create && !Given(Get(e, "created_at")) ==>
              Upsert(cfg, docs, e, now).entity == AsFarAsStamped(cfg, e, now)
  {
    AuditEffect(cfg, e, now);
    if !CanStampNew(cfg) {
      hide NewFields;
      assert CreateAudit(cfg, e, now).0 == AsFarAsStamped(cfg, e, now);
    }
  }

  /** An update, another upsert or a patch leaves it stamped if there is a user, whatever comes of it. */
  lemma UpdatedEntity(cfg: Config, docs: Docs, e: Doc, now: int, later: int)
    ensures var stamped := if CanStampUpdate(cfg) then e + UpdateFields(cfg, now) else e;
            && Update(cfg, docs, e, now).entity == stamped
            && PatchEntity(cfg, docs, e, now, later).entity == stamped
            && ((cfg.kind.create ==> Given(Get(e, "created_at"))) ==> Upsert(cfg, docs, e, now).entity == stamped)
  {
    hide SetFields, Settable, Flatten, Visible, Scope, Fresh;
    if CanStampUpdate(cfg) {
      UpdateStamp(cfg, e, now);
    }
  }

  /** A delete leaves it with the marks of the deletion, and a soft one stamped besides. */
  lemma DeletedEntity(cfg: Config, docs: Docs, e: Doc, now: int, later: int)
    ensures Delete(cfg, docs, e, now, later).entity ==
            if !cfg.kind.delete || cfg.user.None? then e
            else
              var marked := e + map["deleted_at" := Int(now), "deleted_by" := Str(cfg.user.value)];
              if cfg.softDelete then marked + UpdateFields(cfg, later) else marked
  {
    hide Update, Visible, Scope;
    if cfg.kind.delete && cfg.user.Some? {
      var marked := e + map["deleted_at" := Int(now), "deleted_by" := Str(cfg.user.value)];
      assert MarkDeleted(cfg, e, now) == marked;
      UpdatedEntity(cfg, docs, marked, later, later);
    }
  }
}
