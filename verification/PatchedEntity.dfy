/**
  The patch of an entity as the repository sends it, with its stamps: on a stored document
  of its class the store never refuses it, and it changes what it names and nothing else.
*/
module PatchedEntity {
  import opened Codec
  import opened DottedKeys
  import opened DottedSet
  import opened Patch
  import opened PatchedDocument
  import opened RepositorySpec
  import opened Wrappers

  /** The class, or one it inlines, has a field with this key that is no nested class. */
  ghost predicate HasLeafField(c: Class, key: string)
    decreases c
  {
    exists i :: 0 <= i < |c.fields| && IsLeafField(c.fields[i], key)
  }

  ghost predicate IsLeafField(f: Field, key: string)
    decreases f
  {
    && !MetaOf(f).skip
    && if MetaOf(f).inline then f.ty.ClassTy? && HasLeafField(f.ty.cls, key)
       else MetaOf(f).key == key && !f.ty.ClassTy?
  }

  // ---------- Setting a leaf before or after flattening ----------

  /** Other keys than those of the field make no difference. */
  lemma {:induction false} FieldReadsItsKeys(f: Field, e: Doc, e': Doc, parent: string)
    requires Agree(e, e', FieldKeys(f))
    ensures FlattenField(f, e, parent) == FlattenField(f, e', parent)
    decreases f, 0
  {
    if !MetaOf(f).skip {
      if MetaOf(f).inline {
        if f.ty.ClassTy? {
          assert FieldKeys(f) == Keys(f.ty.cls);
          ClassReadsItsKeys(f.ty.cls, |f.ty.cls.fields|, e, e', parent);
        }
      } else {
        assert MetaOf(f).key in FieldKeys(f);
      }
    }
  }

  lemma {:induction false} ClassReadsItsKeys(c: Class, n: nat, e: Doc, e': Doc, parent: string)
    requires n <= |c.fields| && Agree(e, e', KeysUpTo(c, n))
    ensures FlattenFields(c, n, e, parent) == FlattenFields(c, n, e', parent)
    decreases c, n
  {
    if n > 0 {
      ClassReadsItsKeys(c, n - 1, e, e', parent);
      FieldReadsItsKeys(c.fields[n - 1], e, e', parent);
    }
  }

  lemma LeafFieldKey(f: Field, key: string)
    requires IsLeafField(f, key)
    ensures key in FieldKeys(f)
  {
    if MetaOf(f).inline {
      LeafClassKey(f.ty.cls, key);
    }
  }

  lemma LeafClassKey(c: Class, key: string)
    requires HasLeafField(c, key)
    ensures key in Keys(c)
  {
    var i :| 0 <= i < |c.fields| && IsLeafField(c.fields[i], key);
    LeafFieldKey(c.fields[i], key);
    KeysContain(c, |c.fields|, i);
  }

  /** The field that owns the key takes the value; every other field is as before. */
  lemma {:induction false} FieldTakesLeaf(c: Class, i: nat, e: Doc, key: string, v: Val)
    requires WellFormed(c) && CleanKeys(c) && i < |c.fields| && HasLeafField(c, key)
    ensures var f := c.fields[i];
            FlattenField(f, e[key := v], "") ==
            if key in FieldKeys(f) then FlattenField(f, e, "")[key := v] else FlattenField(f, e, "")
    decreases c, i
  {
    var f := c.fields[i];
    if key in FieldKeys(f) {
      var j :| 0 <= j < |c.fields| && IsLeafField(c.fields[j], key);
      LeafFieldKey(c.fields[j], key);
      assert i == j;
      if MetaOf(f).inline {
        assert WellFormedTy(f.ty) && CleanKeys(f.ty.cls);
        LeafClassKey(f.ty.cls, key);
        ClassTakesLeaf(f.ty.cls, |f.ty.cls.fields|, e, key, v);
      }
    } else {
      FieldReadsItsKeys(f, e, e[key := v], "");
    }
  }

  /** Flattened up to field `n`, the class takes the value exactly if it owns the key by then. */
  ghost predicate TakesLeaf(c: Class, n: nat, e: Doc, key: string, v: Val)
    requires n <= |c.fields|
  {
    FlattenFields(c, n, e[key := v], "") ==
    if key in KeysUpTo(c, n) then FlattenFields(c, n, e, "")[key := v] else FlattenFields(c, n, e, "")
  }

  lemma {:induction false} ClassTakesLeaf(c: Class, n: nat, e: Doc, key: string, v: Val)
    requires WellFormed(c) && CleanKeys(c) && n <= |c.fields| && HasLeafField(c, key)
    ensures TakesLeaf(c, n, e, key, v)
    decreases c, n
  {
    hide FlattenField, FieldKeys, HasLeafField, WellFormed, CleanKeys;
    if n > 0 {
      ClassTakesLeaf(c, n - 1, e, key, v);
      FieldTakesLeaf(c, n - 1, e, key, v);
      OneMoreField(c, n - 1, e, key, v);
    }
  }

  lemma OneMoreField(c: Class, n: nat, e: Doc, key: string, v: Val)
    requires WellFormed(c) && CleanKeys(c) && n < |c.fields| && HasLeafField(c, key) && TakesLeaf(c, n, e, key, v)
    requires var f := c.fields[n];
             FlattenField(f, e[key := v], "") ==
             if key in FieldKeys(f) then FlattenField(f, e, "")[key := v] else FlattenField(f, e, "")
    ensures TakesLeaf(c, n + 1, e, key, v)
  {
    hide FlattenFields, FlattenField, HasLeafField, WellFormed, CleanKeys, FieldKeys;
    var before, field := FlattenFields(c, n, e, ""), FlattenField(c.fields[n], e, "");
    LeafClassKey(c, key);
    FlattenStep(c, n, e, "");
    FlattenStep(c, n, e[key := v], "");
    KeysDisjoint(c, n, n);
    assert KeysUpTo(c, n + 1) == KeysUpTo(c, n) + FieldKeys(c.fields[n]);
    if key in KeysUpTo(c, n) {
      NotUnderOther(c, n, e, key);
      assert before[key := v] + field == (before + field)[key := v];
    } else if key in FieldKeys(c.fields[n]) {
      assert before + field[key := v] == (before + field)[key := v];
    }
  }

  /** A field flattens to no key of another field. */
  lemma NotUnderOther(c: Class, i: nat, e: Doc, key: string)
    requires CleanKeys(c) && i < |c.fields| && key in Keys(c) && key !in FieldKeys(c.fields[i])
    ensures key !in FlattenField(c.fields[i], e, "")
  {
    KeysAreDotFree(c, |c.fields|, key);
    FlattenFieldUnder(c, i, e, "");
    OtherKeysOnly(FlattenField(c.fields[i], e, ""), FieldKeys(c.fields[i]), key);
    assert Under(key, key);
  }

  // ---------- The patch of an entity ----------

  /** The entity type has its stamps, and its id if it has one, as plain fields. */
  ghost predicate PlainAudit(kind: Kind) {
    && WellFormed(kind.shape) && CleanKeys(kind.shape)
    && (kind.update ==> HasLeafField(kind.shape, "updated_by") && HasLeafField(kind.shape, "updated_at"))
    && ("_id" in Keys(kind.shape) ==> HasLeafField(kind.shape, "_id"))
  }

  /** What the repository sends is the flattened stamped entity. */
  lemma PayloadIsFlattened(cfg: Config, e: Doc, later: int)
    requires PlainAudit(cfg.kind) && (cfg.kind.update ==> cfg.user.Some?)
    ensures PatchPayload(cfg, e, later) == Flatten(cfg.kind.shape, Stamp(cfg, e, later), "")
  {
    hide HasLeafField, WellFormed, CleanKeys, FlattenFields;
    var c := cfg.kind.shape;
    if cfg.kind.update {
      var signed := e["updated_by" := Str(cfg.user.value)];
      LeafClassKey(c, "updated_by");
      LeafClassKey(c, "updated_at");
      ClassTakesLeaf(c, |c.fields|, e, "updated_by", Str(cfg.user.value));
      ClassTakesLeaf(c, |c.fields|, signed, "updated_at", Int(later));
    }
  }

  /** A flattened entity sets the id to the entity's, or does not touch it. */
  lemma {:induction false} FlattenKeepsId(c: Class, d: Doc, e: Doc)
    requires WellFormed(c) && CleanKeys(c) && ("_id" in Keys(c) ==> HasLeafField(c, "_id"))
    requires "_id" in e && Get(d, "_id") == Some(e["_id"])
    ensures Get(SetFields(d, Flatten(c, e, "")), "_id") == Get(d, "_id")
  {
    var p := Flatten(c, e, "");
    if "_id" in Keys(c) {
      ClassTakesLeaf(c, |c.fields|, e, "_id", e["_id"]);
      assert e["_id" := e["_id"]] == e;
      SetsNamedKey(d, p, "_id");
    } else {
      if "_id" in Heads(p) {
        HeadIsKey(c, e, "_id");
      }
      KeepsOtherKey(d, p, "_id");
    }
  }

  lemma SetsNamedKey(d: Doc, p: Doc, h: string)
    requires DotFree(h) && h in p
    ensures h in SetFields(d, p) && SetFields(d, p)[h] == p[h]
  {
    HeadOf(h, "");
    assert h in Heads(p);
  }

  lemma KeepsOtherKey(d: Doc, p: Doc, h: string)
    requires DotFree(h) && h !in Heads(p)
    ensures Get(SetFields(d, p), h) == Get(d, h)
  {
    if Below(p, h) != map[] {
      BelowIsHead(p, h);
    }
    if h in p {
      HeadOf(h, "");
    }
  }

  /**
    The patch of an entity on a stored document of its class is never refused by the
    store. When it succeeds, each leaf that the stamped entity names is set, and every
    other one stays as it was, in nested classes too.
  */
  lemma PatchIsCarriedOut(cfg: Config, docs: Docs, e: Doc, now: int, later: int, nodes: seq<string>)
    requires PlainAudit(cfg.kind) && Keyed(docs) && "_id" in e && Clean(nodes)
    requires IdOf(e) in docs ==> Shaped(cfg.kind.shape, docs[IdOf(e)])
    ensures var w := PatchEntity(cfg, docs, e, now, later);
            && w.error != Some(WriteFailed)
            && (w.error.None? ==>
                  && IdOf(e) in w.docs
                  && LeafLaw(docs[IdOf(e)], PatchPayload(cfg, Stamp(cfg, e, now), later), w.docs[IdOf(e)], nodes))
  {
    hide SetFields, Settable, Flatten, LeafLaw, WellFormed, CleanKeys, HasLeafField, Shaped, Visible, Scope;
    var id := IdOf(e);
    if (cfg.kind.update ==> cfg.user.Some?) && id in docs {
      var e' := Stamp(cfg, e, now);
      var sent := Stamp(cfg, e', later);
      PayloadIsFlattened(cfg, e', later);
      FlattenIsSettable(cfg.kind.shape, docs[id], sent);
      FlattenKeepsId(cfg.kind.shape, docs[id], sent);
      LeafOfSet(docs[id], PatchPayload(cfg, e', later), nodes);
    }
  }
}
