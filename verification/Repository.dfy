/**
  The Mongo repository in the form of its code: operations that build filters, inject the
  isolation and soft-delete conditions into them, and issue store commands. Each is
  proved to mean what `RepositorySpec` says.
*/
module Repository {
  import opened Codec
  import opened DottedKeys
  import opened DottedSet
  import opened RepositorySpec
  import opened Wrappers
  import P = Patch

  /** A filter: under each of its keys a condition on the whole document. */
  type Filter = map<string, Doc -> bool>

  ghost predicate Matches(d: Doc, f: Filter) {
    forall k :: k in f ==> f[k](d)
  }

  function FieldIs(key: string, v: Val): Doc -> bool {
    (d: Doc) => key in d && d[key] == v
  }

  function FieldMissing(key: string): Doc -> bool {
    (d: Doc) => key !in d
  }

  /** The ids of the documents that a filter selects. */
  ghost function Hits(docs: Docs, f: Filter): set<Val> {
    set id | id in docs && Matches(docs[id], f)
  }

  // ---------- The store ----------

  class Collection {
    var docs: Docs

    predicate Valid()
      reads this
    {
      Keyed(docs)
    }

    /** Others use the store. Callers know this contract only. */
    method Interfere()
      requires Valid()
      modifies this
      ensures Valid()
    {
    }

    method InsertOne(doc: Doc) returns (inserted: bool)
      requires Valid()
      modifies this
      ensures Valid()
      ensures inserted == ("_id" in doc && doc["_id"] !in old(docs))
      ensures docs == if inserted then old(docs)[doc["_id"] := doc] else old(docs)
    {
      inserted := "_id" in doc && doc["_id"] !in docs;
      if inserted {
        docs := docs[doc["_id"] := doc];
      }
    }

    /** Replaces the document `id` if the filter selects it. Every filter of the repository names one id. */
    method ReplaceOne(id: Val, f: Filter, doc: Doc) returns (matched: bool, modified: bool)
      requires Valid() && Get(doc, "_id") == Some(id)
      modifies this
      ensures Valid()
      ensures matched == (id in Hits(old(docs), f))
      ensures modified == (matched && old(docs)[id] != doc)
      ensures docs == if matched then old(docs)[id := doc] else old(docs)
    {
      matched := Selects(id, f);
      modified := matched && docs[id] != doc;
      if matched {
        docs := docs[id := doc];
      }
    }

    /** Sets dotted keys on the document `id` if the filter selects it and the store can. */
    method UpdateOne(id: Val, f: Filter, fields: Doc) returns (matched: bool, modified: bool, failed: bool)
      requires Valid()
      modifies this
      ensures Valid()
      ensures matched == (id in Hits(old(docs), f))
      ensures failed == (matched && !CanSet(old(docs)[id], fields))
      ensures modified == (matched && !failed && old(docs)[id] != SetFields(old(docs)[id], fields))
      ensures docs == if matched && !failed then old(docs)[id := SetFields(old(docs)[id], fields)] else old(docs)
    {
      hide SetFields, Settable;
      matched := Selects(id, f);
      failed := matched && !CanSet(docs[id], fields);
      modified := matched && !failed && docs[id] != SetFields(docs[id], fields);
      if matched && !failed {
        docs := docs[id := SetFields(docs[id], fields)];
      }
    }

    method DeleteOne(id: Val, f: Filter) returns (deleted: bool)
      requires Valid()
      modifies this
      ensures Valid()
      ensures deleted == (id in Hits(old(docs), f))
      ensures docs == if deleted then old(docs) - {id} else old(docs)
    {
      deleted := Selects(id, f);
      if deleted {
        docs := docs - {id};
      }
    }

    /**
      Sets dotted keys on every document that the filter selects, one after the other. It
      stops at the first on which the store cannot set them; `done` had their turn before.
    */
    method UpdateMany(f: Filter, fields: Doc)
        returns (matched: nat, modified: bool, failed: bool, ghost done: set<Val>)
      requires Valid()
      modifies this
      ensures Valid() && matched == |Hits(old(docs), f)| && done <= Hits(old(docs), f)
      ensures failed <==> exists id :: id in Hits(old(docs), f) && !CanSet(old(docs)[id], fields)
      ensures !failed ==> done == Hits(old(docs), f)
      ensures docs == SetOn(old(docs), done, fields)
      ensures modified == (docs != old(docs))
    {
      hide SetFields, Settable, CanSet;
      ghost var before := docs;
      var ids := SelectAll(f);
      matched, modified, failed, done := |ids|, false, false, {};
      NothingSet(docs, fields);
      var rest := ids;
      while rest != {}
        invariant rest <= ids && done == ids - rest
        invariant docs == SetOn(before, done, fields)
        invariant modified == (docs != before)
        invariant forall id :: id in done ==> CanSet(before[id], fields)
        decreases rest
      {
        var id :| id in rest;
        if !CanSet(docs[id], fields) {
          failed := true;
          KeyedAfter(before, done, fields);
          return;
        }
        var updated := SetFields(docs[id], fields);
        OneMoreSet(before, done, id, fields);
        modified := modified || docs[id] != updated;
        docs := docs[id := updated];
        rest, done := rest - {id}, done + {id};
      }
      KeyedAfter(before, done, fields);
    }

    method DeleteMany(f: Filter) returns (deleted: nat)
      requires Valid()
      modifies this
      ensures Valid() && deleted == |Hits(old(docs), f)|
      ensures docs == old(docs) - Hits(old(docs), f)
    {
      var ids := SelectAll(f);
      deleted := |ids|;
      docs := docs - ids;
    }

    method SelectAll(f: Filter) returns (ids: set<Val>)
      ensures ids == Hits(docs, f)
    {
      ids := {};
      var rest := docs.Keys;
      while rest != {}
        invariant rest <= docs.Keys
        invariant ids == Hits(docs, f) - rest
        decreases rest
      {
        var id :| id in rest;
        var hit := Selects(id, f);
        if hit {
          ids := ids + {id};
        }
        rest := rest - {id};
      }
    }

    /** Does the filter select the document `id`? */
    method Selects(id: Val, f: Filter) returns (hit: bool)
      ensures hit == (id in Hits(docs, f))
    {
      hit := id in docs;
      if hit {
        var keys := f.Keys;
        while keys != {}
          invariant keys <= f.Keys
          invariant hit <==> forall k :: k in f && k !in keys ==> f[k](docs[id])
          decreases keys
        {
          var k :| k in keys;
          hit := hit && f[k](docs[id]);
          keys := keys - {k};
        }
      }
    }
  }

  // ---------- The repository ----------

  class CollectionRepository {
    const collection: Collection

    constructor (collection: Collection)
      ensures this.collection == collection
    {
      this.collection := collection;
    }

    /** Adds the conditions of isolation and soft delete to a caller's filter, over any condition of the same name. */
    method InjectCond(cfg: Config, filter: Filter) returns (r: Result<Filter, RepoError>)
      ensures r.Err? <==> Scope(cfg).Err?
      ensures r.Err? ==> r.error == NoContext
      ensures r.Ok? ==> Conditioned(cfg, filter, r.value)
    {
      var ret := filter;
      if cfg.isolation.ByUser? && cfg.kind.create {
        if cfg.user.None? {
          return Err(NoContext);
        }
        ret := ret["created_by" := FieldIs("created_by", Str(cfg.user.value))];
      } else if cfg.isolation.ByTenant? && cfg.kind.tenant {
        if cfg.tenant.None? {
          return Err(NoContext);
        }
        ret := ret["tenant_id" := FieldIs("tenant_id", Str(cfg.tenant.value))];
      } else if cfg.isolation.ByApp? && cfg.kind.tenant {
        if cfg.app.None? {
          return Err(NoContext);
        }
        ret := ret["app_id" := FieldIs("app_id", Str(cfg.app.value))];
      }
      if cfg.softDelete && cfg.kind.delete {
        ret := ret["deleted_at" := FieldMissing("deleted_at")];
      }
      return Ok(ret);
    }

    method Create(cfg: Config, e: Doc, now: int) returns (e': Doc, error: Option<RepoError>)
      requires collection.Valid()
      modifies collection
      ensures collection.Valid()
      ensures Write(collection.docs, e', error) == RepositorySpec.Create(cfg, old(collection.docs), e, now)
      ensures error.None? ==> "_id" in e && collection.docs == old(collection.docs)[e["_id"] := e']
    {
      if !Truthy(Get(e, "_id")) {
        return e, Some(EmptyId);
      }
      var (audited, failure) := CreateAudit(cfg, e, now);
      if failure.Some? {
        return audited, failure;
      }
      var inserted := collection.InsertOne(audited);
      return audited, if inserted then None else Some(Conflict);
    }

    /** Stamps the entity and builds the filter on its id and on the version it was loaded with. */
    method BaseUpdateFilter(cfg: Config, e: Doc, now: int) returns (e': Doc, f: Result<Filter, RepoError>)
      requires collection.Valid()
      ensures f.Err? <==> (cfg.kind.update && cfg.user.None?) || Scope(cfg).Err?
      ensures f.Err? ==> f.error == NoContext
      ensures e' == if cfg.kind.update && cfg.user.None? then e else Stamp(cfg, e, now)
      ensures f.Ok? ==> Conditioned(cfg, BaseFilter(cfg, e), f.value)
      ensures f.Ok? ==> SelectsLoaded(cfg, e, f.value, collection.docs)
    {
      var original := LoadedVersion(cfg, e);
      if cfg.kind.update && cfg.user.None? {
        return e, Err(NoContext);
      }
      e' := Stamp(cfg, e, now);
      var filter: Filter := map["_id" := FieldIs("_id", IdOf(e))];
      if original.Some? {
        filter := filter["updated_at" := FieldIs("updated_at", original.value)];
      }
      f := InjectCond(cfg, filter);
      if f.Ok? {
        BaseFilterMeans(cfg, e, f.value, collection.docs);
      }
    }

    method CommonReplace(cfg: Config, e: Doc, now: int, upsert: bool) returns (e': Doc, error: Option<RepoError>)
      requires collection.Valid() && "_id" in e
      modifies collection
      ensures collection.Valid()
      ensures !upsert || !Uncreated(cfg, e) ==>
                Replaced(cfg, old(collection.docs), collection.docs, e, now, upsert, e', error)
      ensures upsert && Uncreated(cfg, e) ==>
                Write(collection.docs, e', error) == RepositorySpec.Upsert(cfg, old(collection.docs), e, now)
      ensures error.None? ==> collection.docs == old(collection.docs)[e["_id"] := e']
    {
      hide Conditioned, BaseFilter, Hits, Visible, Scope, Fresh;
      var filter: Filter;
      if upsert && Uncreated(cfg, e) {
        var (audited, failure) := CreateAudit(cfg, e, now);
        if failure.Some? {
          return audited, failure;
        }
        e', filter := audited, ById(IdOf(e));
        ByIdMeans(IdOf(e), collection.docs);
      } else {
        var f;
        e', f := BaseUpdateFilter(cfg, e, now);
        if f.Err? {
          return e', Some(f.error);
        }
        filter := f.value;
      }
      error := ReplaceOrExplain(IdOf(e), filter, e', upsert);
      if !upsert || !Uncreated(cfg, e) {
        BaseFilterMeans(cfg, e, filter, collection.docs);
      }
    }

    /** Issues the replace; when nothing matched, finds out why. */
    method ReplaceOrExplain(id: Val, filter: Filter, payload: Doc, upsert: bool) returns (error: Option<RepoError>)
      requires collection.Valid() && Get(payload, "_id") == Some(id)
      modifies collection
      ensures collection.Valid()
      ensures var docs := old(collection.docs);
              if id in Hits(docs, filter) then
                && collection.docs == docs[id := payload]
                && error == if "updated_at" in filter && docs[id] == payload then Some(Conflict) else None
              else if upsert then
                && collection.docs == (if id in docs then docs else docs[id := payload])
                && error == if id in docs then Some(Conflict) else None
              else error == Some(if id in Hits(collection.docs, filter - {"updated_at"}) then Conflict else NotFound)
    {
      var matched, modified := collection.ReplaceOne(id, filter, payload);
      if !matched {
        if upsert {
          var inserted := collection.InsertOne(payload);
          return if inserted then None else Some(Conflict);
        }
        collection.Interfere();
        var there := collection.Selects(id, filter - {"updated_at"});
        return Some(if there then Conflict else NotFound);
      }
      return if "updated_at" in filter && !modified then Some(Conflict) else None;
    }

    method Update(cfg: Config, e: Doc, now: int) returns (e': Doc, error: Option<RepoError>)
      requires collection.Valid() && "_id" in e
      modifies collection
      ensures collection.Valid()
      ensures Replaced(cfg, old(collection.docs), collection.docs, e, now, false, e', error)
      ensures error.None? ==> "_id" in e && collection.docs == old(collection.docs)[e["_id"] := e']
    {
      e', error := CommonReplace(cfg, e, now, false);
    }

    method Upsert(cfg: Config, e: Doc, now: int) returns (e': Doc, error: Option<RepoError>)
      requires collection.Valid() && "_id" in e
      modifies collection
      ensures collection.Valid()
      ensures Write(collection.docs, e', error) == RepositorySpec.Upsert(cfg, old(collection.docs), e, now)
      ensures error.None? ==> "_id" in e && collection.docs == old(collection.docs)[e["_id"] := e']
    {
      e', error := CommonReplace(cfg, e, now, true);
    }

    method Patch(cfg: Config, e: Doc, now: int, later: int) returns (e': Doc, error: Option<RepoError>)
      requires collection.Valid() && "_id" in e
      modifies collection
      ensures collection.Valid()
      ensures Write(collection.docs, e', error) == PatchEntity(cfg, old(collection.docs), e, now, later)
    {
      hide SetFields, Settable, P.Flatten, Conditioned, BaseFilter, Hits, Visible, Scope, Fresh;
      var f;
      e', f := BaseUpdateFilter(cfg, e, now);
      if f.Err? {
        return e', Some(f.error);
      }
      var payload := P.Flatten(cfg.kind.shape, e', "");
      if cfg.kind.update {
        payload := payload["updated_by" := Str(cfg.user.value)]["updated_at" := Int(later)];
      }
      var matched, modified, failed := collection.UpdateOne(IdOf(e), f.value, payload);
      if failed {
        return e', Some(WriteFailed);
      }
      if !matched {
        return e', Some(NotFound);
      }
      return e', if "updated_at" in f.value && !modified then Some(Conflict) else None;
    }

    method Delete(cfg: Config, e: Doc, now: int, later: int) returns (e': Doc, error: Option<RepoError>)
      requires collection.Valid() && "_id" in e
      modifies collection
      ensures collection.Valid()
      ensures HidesDeleted(cfg) && cfg.user.Some? ==>
                Replaced(cfg, old(collection.docs), collection.docs, MarkDeleted(cfg, e, now), later, false, e', error)
      ensures !HidesDeleted(cfg) || cfg.user.None? ==>
                Write(collection.docs, e', error) == RepositorySpec.Delete(cfg, old(collection.docs), e, now, later)
      ensures error.None? ==>
                if cfg.softDelete && cfg.kind.delete then
                  && collection.docs == old(collection.docs)[e["_id"] := e'] && cfg.user.Some?
                  && Get(e', "deleted_at") == Some(Int(now)) && Get(e', "deleted_by") == Some(Str(cfg.user.value))
                else
                  collection.docs == old(collection.docs) - {e["_id"]}
    {
      e' := e;
      if cfg.kind.delete {
        if cfg.user.None? {
          return e, Some(NoContext);
        }
        e' := MarkDeleted(cfg, e, now);
        if cfg.softDelete {
          e', error := Update(cfg, e', later);
          return;
        }
      }
      var f := InjectCond(cfg, ById(IdOf(e)));
      if f.Err? {
        return e', Some(f.error);
      }
      InjectedByIdMeans(cfg, IdOf(e), f.value, collection.docs);
      var deleted := collection.DeleteOne(IdOf(e), f.value);
      return e', if deleted then None else Some(NotFound);
    }

    /** An injected filter, and what it selects at this moment. */
    method InjectNow(cfg: Config, filter: Filter) returns (r: Result<Filter, RepoError>)
      ensures r.Err? <==> Scope(cfg).Err?
      ensures r.Err? ==> r.error == NoContext
      ensures r.Ok? ==>
                && ("updated_at" in r.value <==> "updated_at" in filter)
                && Hits(collection.docs, r.value) ==
                   Selected(cfg, collection.docs, Hits(collection.docs, filter - Injected(cfg)))
    {
      r := InjectCond(cfg, filter);
      if r.Ok? {
        InjectedSelects(cfg, filter, r.value, collection.docs);
      }
    }

    method BatchDeleteByFilter(cfg: Config, filter: Filter, now: int) returns (count: nat, error: Option<RepoError>)
      requires collection.Valid()
      modifies collection
      ensures collection.Valid()
      ensures (collection.docs, error) ==
              BatchDelete(cfg, old(collection.docs), Hits(old(collection.docs), filter - Injected(cfg)), now)
      ensures error.None? ==>
                count == |Selected(cfg, old(collection.docs), Hits(old(collection.docs), filter - Injected(cfg)))|
    {
      var f := InjectNow(cfg, filter);
      if f.Err? {
        return 0, Some(f.error);
      }
      if cfg.kind.delete && cfg.softDelete {
        if cfg.user.None? {
          return 0, Some(NoContext);
        }
        var fields := DeletionMarks(cfg, now);
        CanMarkAll(collection.docs, fields);
        var matched, _, _, done := collection.UpdateMany(f.value, fields);
        if matched == 0 {
          NothingSet(old(collection.docs), fields);
          return 0, Some(NotFound);
        }
        return matched, None;
      }
      var deleted := collection.DeleteMany(f.value);
      if deleted == 0 {
        assert collection.docs == old(collection.docs);
        return 0, Some(NotFound);
      }
      return deleted, None;
    }

    /**
      Patches all documents that are selected or, if not `many`, one of them: `picks` are
      the ones that it is given to. If the store cannot carry the update out on one of
      them, those that had their turn before, `done`, stay patched.
    */
    method PatchRaw(cfg: Config, filter: Filter, payload: Doc, skip: bool, many: bool, now: int)
        returns (error: Option<RepoError>, ghost picks: set<Val>, ghost done: set<Val>)
      requires collection.Valid()
      modifies collection
      ensures collection.Valid()
      ensures var docs := old(collection.docs);
              var all := Hits(docs, if skip then filter else filter - Injected(cfg));
              error == Some(NoContext) || Picked(cfg, docs, picks, all, skip, many)
      ensures var docs, locked := old(collection.docs), "updated_at" in filter;
              var (docs', e) := PatchRawMany(cfg, docs, picks, payload, skip, locked, now);
              error == e && (e != Some(WriteFailed) ==> collection.docs == docs')
      ensures error == Some(WriteFailed) ==>
                && (cfg.kind.update ==> cfg.user.Some?)
                && done <= Targets(cfg, old(collection.docs), picks, skip)
                && collection.docs == SetOn(old(collection.docs), done, Stamp(cfg, payload, now))
    {
      hide SetFields, Settable, CanSet, SetOn, Selected, Visible, Scope;
      var f := filter;
      picks, done := Hits(collection.docs, if skip then filter else filter - Injected(cfg)), {};
      if !skip {
        var injected := InjectNow(cfg, filter);
        if injected.Err? {
          error := Some(injected.error);
          return;
        }
        f := injected.value;
      }
      assert Targets(cfg, collection.docs, picks, skip) == Hits(collection.docs, f);
      var fields := payload;
      if cfg.kind.update {
        if cfg.user.None? {
          error := Some(NoContext);
          return;
        }
        fields := fields["updated_by" := Str(cfg.user.value)]["updated_at" := Int(now)];
      }
      ghost var docs := collection.docs;
      var matched, modified, failed;
      ghost var targets: set<Val>;
      matched, modified, failed, targets, done := UpdateSome(f, fields, many);
      if !many {
        picks := targets;
      }
      TargetsOfSome(cfg, docs, Hits(docs, if skip then filter else filter - Injected(cfg)), targets, skip);
      RawOutcome(cfg, docs, picks, payload, skip, "updated_at" in filter, now, collection.docs, failed);
      if failed {
        error := Some(WriteFailed);
      } else if !matched {
        error := Some(NotFound);
      } else {
        error := if "updated_at" in f && !modified then Some(Conflict) else None;
      }
    }

    /** Issues the update command for all documents that the filter selects, or for one of them. */
    method UpdateSome(f: Filter, fields: Doc, many: bool)
        returns (matched: bool, modified: bool, failed: bool, ghost targets: set<Val>, ghost done: set<Val>)
      requires collection.Valid()
      modifies collection
      ensures collection.Valid()
      ensures var hits := Hits(old(collection.docs), f);
              if many then targets == hits else targets <= hits && |targets| <= 1 && (targets == {} ==> hits == {})
      ensures matched == (targets != {}) && modified == (collection.docs != old(collection.docs))
      ensures failed <==> exists id :: id in targets && !CanSet(old(collection.docs)[id], fields)
      ensures done <= targets && (!failed ==> done == targets)
      ensures collection.docs == SetOn(old(collection.docs), done, fields)
    {
      hide SetFields, Settable, CanSet;
      ghost var docs := collection.docs;
      NothingSet(docs, fields);
      if many {
        var count;
        targets := Hits(docs, f);
        count, modified, failed, done := collection.UpdateMany(f, fields);
        matched := count > 0;
      } else {
        var ids := collection.SelectAll(f);
        matched, modified, failed, targets, done := false, false, false, {}, {};
        if ids != {} {
          var id :| id in ids;
          targets := {id};
          matched, modified, failed := collection.UpdateOne(id, f, fields);
          done := if failed then {} else {id};
          if !failed {
            OneSet(docs, id, fields);
          }
        }
      }
    }

    /** All documents that the caller may see and its own conditions select. */
    method Find(cfg: Config, filter: Filter) returns (r: Result<set<Val>, RepoError>)
      requires collection.Valid()
      ensures r.Err? <==> Scope(cfg).Err?
      ensures r.Ok? ==> r.value == Selected(cfg, collection.docs, Hits(collection.docs, filter - Injected(cfg)))
    {
      var f := InjectNow(cfg, filter);
      if f.Err? {
        return Err(f.error);
      }
      var ids := collection.SelectAll(f.value);
      return Ok(ids);
    }

    /** Looks a document up by its id, through the injected conditions. */
    method GetById(cfg: Config, id: Val) returns (r: Result<Doc, RepoError>)
      requires collection.Valid()
      ensures r.Ok? <==> Sees(cfg, collection.docs, id)
      ensures r.Ok? ==> r.value == collection.docs[id]
      ensures r.Err? ==> r.error == if Scope(cfg).Err? then NoContext else NotFound
    {
      var f := InjectCond(cfg, ById(id));
      if f.Err? {
        return Err(f.error);
      }
      InjectedByIdMeans(cfg, id, f.value, collection.docs);
      var hit := collection.Selects(id, f.value);
      if !hit {
        return Err(NotFound);
      }
      return Ok(collection.docs[id]);
    }
  }

  /** A raw patch is given to all documents that the filter selects, or to one of them if there is one. */
  ghost predicate Picked(cfg: Config, docs: Docs, picks: set<Val>, all: set<Val>, skip: bool, many: bool) {
    if many then picks == all
    else picks <= all && |picks| <= 1 && (picks == {} ==> Targets(cfg, docs, all, skip) == {})
  }

  /** The keys that `InjectCond` writes. */
  function Injected(cfg: Config): set<string> {
    (if Scope(cfg).Ok? && Scope(cfg).value.Some? then {Scope(cfg).value.value.0} else {})
    + (if HidesDeleted(cfg) then {"deleted_at"} else {})
  }

  /** What a filter becomes: the injected conditions, and the caller's own under all other keys. */
  ghost predicate Conditioned(cfg: Config, filter: Filter, ret: Filter) {
    && Scope(cfg).Ok? && ret.Keys == filter.Keys + Injected(cfg)
    && (forall k :: k in filter && k !in Injected(cfg) ==> ret[k] == filter[k])
    && (Scope(cfg).value.Some? ==>
          ret[Scope(cfg).value.value.0] == FieldIs(Scope(cfg).value.value.0, Scope(cfg).value.value.1))
    && (HidesDeleted(cfg) ==> ret["deleted_at"] == FieldMissing("deleted_at"))
  }

  /** An injected filter selects the visible documents that the caller's own conditions select. */
  lemma InjectedMeansVisible(cfg: Config, filter: Filter, ret: Filter, d: Doc)
    requires Conditioned(cfg, filter, ret)
    ensures Matches(d, ret) <==> Visible(cfg, d) && Matches(d, filter - Injected(cfg))
  {
    var own := filter - Injected(cfg);
    if Matches(d, ret) {
      if Scope(cfg).value.Some? {
        assert ret[Scope(cfg).value.value.0](d);
      }
      if HidesDeleted(cfg) {
        assert ret["deleted_at"](d);
      }
      forall k | k in own
        ensures own[k](d)
      {
        assert ret[k](d);
      }
    }
    if Visible(cfg, d) && Matches(d, own) {
      forall k | k in ret
        ensures ret[k](d)
      {
        if k !in Injected(cfg) {
          assert own[k](d);
        }
      }
    }
  }

  lemma InjectedSelects(cfg: Config, filter: Filter, ret: Filter, docs: Docs)
    requires Conditioned(cfg, filter, ret)
    ensures Hits(docs, ret) == Selected(cfg, docs, Hits(docs, filter - Injected(cfg)))
  {
    forall id | id in docs
      ensures id in Hits(docs, ret) <==> id in Selected(cfg, docs, Hits(docs, filter - Injected(cfg)))
    {
      InjectedMeansVisible(cfg, filter, ret, docs[id]);
    }
  }

  lemma NothingSet(docs: Docs, fields: Doc)
    ensures SetOn(docs, {}, fields) == docs
  {
  }

  lemma KeyedAfter(docs: Docs, ids: set<Val>, fields: Doc)
    requires Keyed(docs)
    ensures Keyed(SetOn(docs, ids, fields))
  {
    hide SetFields, Settable;
  }

  lemma OneMoreSet(docs: Docs, done: set<Val>, id: Val, fields: Doc)
    requires id in docs && id !in done && CanSet(docs[id], fields)
    ensures SetOn(docs, done, fields)[id] == docs[id]
    ensures SetOn(docs, done + {id}, fields) == SetOn(docs, done, fields)[id := SetFields(docs[id], fields)]
    ensures SetOn(docs, done + {id}, fields) == docs <==>
            SetOn(docs, done, fields) == docs && SetFields(docs[id], fields) == docs[id]
  {
    hide SetFields, Settable, CanSet;
    var before, after := SetOn(docs, done, fields), SetOn(docs, done + {id}, fields);
    assert after == before[id := SetFields(docs[id], fields)];
    if after == docs {
      assert before[id] == docs[id];
      assert before == docs;
    }
  }

  lemma TargetsOfSome(cfg: Config, docs: Docs, all: set<Val>, some: set<Val>, skip: bool)
    requires some <= Targets(cfg, docs, all, skip)
    ensures Targets(cfg, docs, some, skip) == some <= all
  {
    hide Visible, Scope;
  }

  /** What a raw patch answers, once its documents had their turns. */
  lemma RawOutcome(cfg: Config, docs: Docs, picks: set<Val>, payload: Doc, skip: bool, locked: bool, now: int,
                   docs': Docs, failed: bool)
    requires (skip || Scope(cfg).Ok?) && (cfg.kind.update ==> cfg.user.Some?)
    requires failed <==>
             exists id :: id in Targets(cfg, docs, picks, skip) && !CanSet(docs[id], Stamp(cfg, payload, now))
    requires !failed ==> docs' == SetOn(docs, Targets(cfg, docs, picks, skip), Stamp(cfg, payload, now))
    ensures var (docs'', error) := PatchRawMany(cfg, docs, picks, payload, skip, locked, now);
            && (!failed ==> docs'' == docs')
            && error == if Targets(cfg, docs, picks, skip) == {} then Some(NotFound)
                        else if failed then Some(WriteFailed)
                        else if locked && docs' == docs then Some(Conflict) else None
  {
    hide SetFields, Settable, CanSet;
    NothingSet(docs, Stamp(cfg, payload, now));
  }

  lemma OneSet(docs: Docs, id: Val, fields: Doc)
    requires id in docs && CanSet(docs[id], fields)
    ensures SetOn(docs, {id}, fields) == docs[id := SetFields(docs[id], fields)]
  {
    hide SetFields, Settable, CanSet;
  }

  /** The marks of a deletion can be set on any document. */
  lemma CanMarkAll(docs: Docs, fields: Doc)
    requires fields.Keys == {"deleted_at", "deleted_by"}
    ensures forall id :: id in docs ==> CanSet(docs[id], fields)
  {
    forall id | id in docs
      ensures CanSet(docs[id], fields)
    {
      CanMark(docs[id], fields);
    }
  }

  lemma CanMark(d: Doc, fields: Doc)
    requires fields.Keys == {"deleted_at", "deleted_by"}
    ensures CanSet(d, fields)
  {
    hide SetFields, Settable;
    assert forall k :: k in fields ==> DotFree(k);
    SetsTopKeys(d, fields);
  }

  function ById(id: Val): Filter {
    map["_id" := FieldIs("_id", id)]
  }

  lemma ByIdMeans(id: Val, docs: Docs)
    requires Keyed(docs)
    ensures id in Hits(docs, ById(id)) <==> id in docs
  {
  }

  lemma InjectedByIdMeans(cfg: Config, id: Val, f: Filter, docs: Docs)
    requires Keyed(docs) && Conditioned(cfg, ById(id), f)
    ensures id in Hits(docs, f) <==> Sees(cfg, docs, id)
  {
    if id in docs {
      InjectedMeansVisible(cfg, ById(id), f, docs[id]);
      assert ById(id) - Injected(cfg) == ById(id);
    }
  }

  /** The filter of an entity write before injection: its id and the version it was loaded with. */
  function BaseFilter(cfg: Config, e: Doc): Filter {
    if LoadedVersion(cfg, e).Some?
    then ById(IdOf(e))["updated_at" := FieldIs("updated_at", LoadedVersion(cfg, e).value)]
    else ById(IdOf(e))
  }

  /** With the version the filter selects a fresh visible document, without it any visible one. */
  ghost predicate SelectsLoaded(cfg: Config, e: Doc, f: Filter, docs: Docs) {
    && ("updated_at" in f <==> LoadedVersion(cfg, e).Some?)
    && (IdOf(e) in Hits(docs, f) <==> Sees(cfg, docs, IdOf(e)) && Fresh(cfg, e, docs[IdOf(e)]))
    && (IdOf(e) in Hits(docs, f - {"updated_at"}) <==> Sees(cfg, docs, IdOf(e)))
  }

  lemma BaseFilterMeans(cfg: Config, e: Doc, f: Filter, docs: Docs)
    requires Keyed(docs) && Conditioned(cfg, BaseFilter(cfg, e), f)
    ensures SelectsLoaded(cfg, e, f, docs)
  {
    assert "updated_at" in f <==> LoadedVersion(cfg, e).Some?;
    WithVersionMeans(cfg, e, f, docs);
    WithoutVersionMeans(cfg, e, f, docs);
  }

  lemma BaseMatches(cfg: Config, e: Doc, f: Filter, d: Doc)
    requires Conditioned(cfg, BaseFilter(cfg, e), f) && Get(d, "_id") == Some(IdOf(e))
    ensures Matches(d, f) <==> Visible(cfg, d) && Fresh(cfg, e, d)
  {
    InjectedMeansVisible(cfg, BaseFilter(cfg, e), f, d);
    assert BaseFilter(cfg, e) - Injected(cfg) == BaseFilter(cfg, e);
    VersionMeansFresh(cfg, e, d);
  }

  lemma WithVersionMeans(cfg: Config, e: Doc, f: Filter, docs: Docs)
    requires Keyed(docs) && Conditioned(cfg, BaseFilter(cfg, e), f)
    ensures IdOf(e) in Hits(docs, f) <==> Sees(cfg, docs, IdOf(e)) && Fresh(cfg, e, docs[IdOf(e)])
  {
    if IdOf(e) in docs {
      BaseMatches(cfg, e, f, docs[IdOf(e)]);
    }
  }

  lemma WithoutVersionMeans(cfg: Config, e: Doc, f: Filter, docs: Docs)
    requires Keyed(docs) && Conditioned(cfg, BaseFilter(cfg, e), f)
    ensures IdOf(e) in Hits(docs, f - {"updated_at"}) <==> Sees(cfg, docs, IdOf(e))
  {
    WithoutVersion(cfg, e, f);
    InjectedByIdMeans(cfg, IdOf(e), f - {"updated_at"}, docs);
  }

  lemma WithoutVersion(cfg: Config, e: Doc, f: Filter)
    requires Conditioned(cfg, BaseFilter(cfg, e), f)
    ensures Conditioned(cfg, ById(IdOf(e)), f - {"updated_at"})
  {
  }

  lemma VersionMeansFresh(cfg: Config, e: Doc, d: Doc)
    requires Get(d, "_id") == Some(IdOf(e))
    ensures Matches(d, BaseFilter(cfg, e)) <==> Fresh(cfg, e, d)
  {
    var base := BaseFilter(cfg, e);
    if LoadedVersion(cfg, e).Some? {
      assert base["updated_at"](d) <==> Fresh(cfg, e, d);
    }
  }
}
