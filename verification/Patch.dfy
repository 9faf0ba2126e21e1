/**
  The patch payload: dotted keys for `$set`, built by a second walk over the same
  metadata as the encoder. The two walks are proved to agree.
*/
module Patch {
  import opened Codec
  import opened DottedKeys

  predicate Hidden(name: string) {
    |name| > 0 && name[0] == '_'
  }

  /** What one field adds to the payload. */
  function PatchField(f: Field, value: Val, parent: string): Doc
    decreases value, 2
  {
    if Hidden(f.name) || value.Null? || MetaOf(f).skip then map[]
    else
      var key := if MetaOf(f).inline then parent else GenDbKey(parent, MetaOf(f).key);
      if value.Obj? then PatchDoc(value, key)
      else if MetaOf(f).inline then map[]
      else map[key := value]
  }

  /** The payload after the first `n` fields. */
  function PatchFields(v: Val, parent: string, n: nat): Doc
    requires v.Obj? && n <= Arity(v)
    decreases v, 0, n
  {
    if n == 0 then map[]
    else PatchFields(v, parent, n - 1) + PatchField(v.cls.fields[n - 1], v.vals[n - 1], parent)
  }

  function PatchDoc(v: Val, parent: string): Doc
    requires v.Obj?
    decreases v, 1
  {
    PatchFields(v, parent, Arity(v))
  }

  method BuildPatchPayload(v: Val, parent: string) returns (payload: Doc)
    requires v.Obj?
    ensures payload == PatchDoc(v, parent)
    decreases v
  {
    payload := map[];
    for i := 0 to Arity(v)
      invariant payload == PatchFields(v, parent, i)
    {
      var f, value := v.cls.fields[i], v.vals[i];
      if Hidden(f.name) || value.Null? {
        continue;
      }
      var meta := MetaOf(f);
      if meta.skip {
        continue;
      }
      var key := if meta.inline then parent else GenDbKey(parent, meta.key);
      if value.Obj? {
        var nested := BuildPatchPayload(value, if !meta.inline then key else parent);
        payload := payload + nested;
      } else if meta.inline {
        continue;
      } else {
        payload := payload[key := value];
      }
    }
  }

  // ---------- Flattening ----------

  /** What a document holds of one field, under dotted keys below `parent`. */
  function FlattenField(f: Field, d: Doc, parent: string): Doc
    decreases f, 0
  {
    var meta := MetaOf(f);
    if meta.skip then map[]
    else if meta.inline then (if f.ty.ClassTy? then Flatten(f.ty.cls, d, parent) else map[])
    else if meta.key !in d then map[]
    else
      var key, v := GenDbKey(parent, meta.key), d[meta.key];
      if f.ty.ClassTy? && v.Dict? then Flatten(f.ty.cls, v.entries, key) else map[key := v]
  }

  function FlattenFields(c: Class, n: nat, d: Doc, parent: string): Doc
    requires n <= |c.fields|
    decreases c, 0, n
  {
    if n == 0 then map[] else FlattenFields(c, n - 1, d, parent) + FlattenField(c.fields[n - 1], d, parent)
  }

  /**
    The document of a class under dotted keys: it is taken apart exactly where a field is
    declared as a class, and nowhere else.
  */
  function Flatten(c: Class, d: Doc, parent: string): Doc
    decreases c, 1
  {
    FlattenFields(c, |c.fields|, d, parent)
  }

  /** The payload as it is sent: its values encoded, its keys as they are. */
  function Encoded(payload: Doc): Doc {
    map k | k in payload :: Encode(payload[k])
  }

  // ---------- Agreement with the encoder ----------

  /** No field name that the patch hides; in nested classes neither. */
  ghost predicate Shown(c: Class)
    decreases c
  {
    forall i :: 0 <= i < |c.fields| ==>
      var f := c.fields[i];
      (f.name != "" ==> f.name[0] != '_') && (f.ty.ClassTy? ==> Shown(f.ty.cls))
  }

  /** An instance only sits in a field declared as its class. */
  lemma ObjFieldClass(c: Class, i: nat, value: Val)
    requires WellFormed(c) && i < |c.fields|
    requires FieldFits(c.fields[i], value) && value.Obj? && !MetaOf(c.fields[i]).skip
    ensures var ty := c.fields[i].ty; ty.ClassTy? && WellFormed(ty.cls) && Fits(value, ty)
  {
    var f := c.fields[i];
    assert WellFormedTy(f.ty);
    assert Fits(value, f.ty) && !Plain(value);
  }

  /** A document without any key of the class flattens to nothing. */
  lemma {:induction false} FlattensToNothing(c: Class, n: nat, d: Doc, parent: string)
    requires n <= |c.fields| && d.Keys !! KeysUpTo(c, n)
    ensures FlattenFields(c, n, d, parent) == map[]
    decreases c, n
  {
    if n > 0 {
      FlattensToNothing(c, n - 1, d, parent);
      FieldFlattensToNothing(c.fields[n - 1], d, parent);
    }
  }

  lemma {:induction false} FieldFlattensToNothing(f: Field, d: Doc, parent: string)
    requires d.Keys !! FieldKeys(f)
    ensures FlattenField(f, d, parent) == map[]
    decreases f, 0
  {
    if MetaOf(f).skip {
    } else if MetaOf(f).inline {
      if f.ty.ClassTy? {
        assert FieldKeys(f) == KeysUpTo(f.ty.cls, |f.ty.cls.fields|);
        FlattensToNothing(f.ty.cls, |f.ty.cls.fields|, d, parent);
      }
    } else {
      assert MetaOf(f).key in FieldKeys(f);
    }
  }

  /** On the keys of a field a document that agrees with the encoded instance holds what the field wrote. */
  lemma AgreesOnField(v: Val, c: Class, i: nat, d: Doc)
    requires WellFormed(c) && Fits(v, ClassTy(c)) && i < |c.fields|
    requires Agree(d, EncodeDoc(v), Keys(c))
    ensures Agree(d, Contribution(c.fields[i], v.vals[i]), FieldKeys(c.fields[i]))
  {
    DocKeys(v, c);
    KeysContain(c, |c.fields|, i);
    PayloadAtField(v, c, |c.fields|, i);
  }

  lemma {:induction false} FieldAgrees(v: Val, c: Class, i: nat, d: Doc, parent: string)
    requires WellFormed(c) && Shown(c) && Fits(v, ClassTy(c)) && i < |c.fields|
    requires Agree(d, EncodeDoc(v), Keys(c))
    ensures FlattenField(c.fields[i], d, parent) == Encoded(PatchField(c.fields[i], v.vals[i], parent))
    decreases v, 0
  {
    var f, value := c.fields[i], v.vals[i];
    assert FieldFits(f, value) && !Hidden(f.name) && (MetaOf(f).inline && !MetaOf(f).skip ==> f.ty.ClassTy?);
    AgreesOnField(v, c, i, d);
    if MetaOf(f).skip {
    } else if value.Obj? {
      ObjFieldClass(c, i, value);
      if MetaOf(f).inline {
        FieldsAgree(value, f.ty.cls, |f.ty.cls.fields|, d, parent);
      } else {
        assert MetaOf(f).key in d && d[MetaOf(f).key] == Dict(EncodeDoc(value));
        FieldsAgree(value, f.ty.cls, |f.ty.cls.fields|, EncodeDoc(value), GenDbKey(parent, MetaOf(f).key));
      }
    } else if value.Null? {
      assert d.Keys !! FieldKeys(f);
      FieldFlattensToNothing(f, d, parent);
    } else {
      PlainFieldAgrees(f, value, d, parent);
    }
  }

  /** A value that is no instance is stored whole. */
  lemma PlainFieldAgrees(f: Field, value: Val, d: Doc, parent: string)
    requires !MetaOf(f).skip && !Hidden(f.name) && !value.Null? && !value.Obj?
    requires Fits(value, f.ty) && (MetaOf(f).inline ==> f.ty.ClassTy?)
    requires Agree(d, Contribution(f, value), FieldKeys(f))
    ensures FlattenField(f, d, parent) == Encoded(PatchField(f, value, parent))
  {
    assert !f.ty.ClassTy?;
    assert MetaOf(f).key in d && d[MetaOf(f).key] == Encode(value);
  }

  lemma EncodedUnion(p1: Doc, p2: Doc)
    ensures Encoded(p1 + p2) == Encoded(p1) + Encoded(p2)
  {
  }

  lemma {:induction false} FieldsAgree(v: Val, c: Class, n: nat, d: Doc, parent: string)
    requires WellFormed(c) && Shown(c) && Fits(v, ClassTy(c)) && n <= |c.fields|
    requires Agree(d, EncodeDoc(v), Keys(c))
    ensures FlattenFields(c, n, d, parent) == Encoded(PatchFields(v, parent, n))
    decreases v, 1, n
  {
    hide SpellsId, SaysInline, WellFormed, Shown, PatchField, FlattenField, Encode, Keys;
    if n > 0 {
      var last := n - 1;
      FieldsAgree(v, c, last, d, parent);
      FieldAgrees(v, c, last, d, parent);
      EncodedUnion(PatchFields(v, parent, last), PatchField(c.fields[last], v.vals[last], parent));
    }
  }

  /**
    The patch payload agrees with the encoder: as it is sent, it is the document of the
    same value with dotted keys in place of nested classes, key by key and value by value.
  */
  lemma PatchAgreesWithEncoder(v: Val, c: Class)
    requires WellFormed(c) && Shown(c) && Fits(v, ClassTy(c))
    ensures Flatten(c, EncodeDoc(v), "") == Encoded(PatchDoc(v, ""))
  {
    FieldsAgree(v, c, |c.fields|, EncodeDoc(v), "");
  }

  /** A field whose name begins with an underscore is not patched: its value makes no difference. */
  lemma {:induction false} UnderscoredIsNotPatched(v: Val, i: nat, value: Val, parent: string, n: nat)
    requires v.Obj? && i < Arity(v) && n <= Arity(v)
    requires v.cls.fields[i].name != "" && v.cls.fields[i].name[0] == '_'
    ensures PatchFields(v, parent, n) == PatchFields(Obj(v.cls, v.vals[i := value]), parent, n)
    decreases n
  {
    if n > 0 {
      UnderscoredIsNotPatched(v, i, value, parent, n - 1);
    }
  }

  // ---------- Keys of different fields ----------

  /** Keys without dots; in nested classes too. */
  ghost predicate CleanKeys(c: Class)
    decreases c
  {
    forall i :: 0 <= i < |c.fields| ==>
      var f := c.fields[i];
      && (!MetaOf(f).inline && !MetaOf(f).skip ==> DotFree(MetaOf(f).key))
      && (f.ty.ClassTy? ==> CleanKeys(f.ty.cls))
  }

  /** Every payload key lies under one of the given keys. */
  ghost predicate KeysUnder(payload: Doc, parent: string, keys: set<string>) {
    forall x :: x in payload ==> exists k :: k in keys && DotFree(k) && Under(x, GenDbKey(parent, k))
  }

  lemma {:induction false} FieldKeysUnder(v: Val, c: Class, parent: string, i: nat)
    requires WellFormed(c) && CleanKeys(c) && Fits(v, ClassTy(c)) && i < |c.fields|
    ensures KeysUnder(PatchField(c.fields[i], v.vals[i], parent), parent, FieldKeys(c.fields[i]))
    decreases v, 0
  {
    var f, value := c.fields[i], v.vals[i];
    assert FieldFits(f, value) && WellFormedTy(f.ty);
    assert !MetaOf(f).inline && !MetaOf(f).skip ==> DotFree(MetaOf(f).key);
    if value.Obj? && !MetaOf(f).skip {
      ObjFieldClass(c, i, value);
      var key := if MetaOf(f).inline then parent else GenDbKey(parent, MetaOf(f).key);
      DocKeysUnder(value, f.ty.cls, key, |f.ty.cls.fields|);
      if !MetaOf(f).inline {
        forall x | x in PatchDoc(value, key)
          ensures Under(x, key)
        {
          var k :| k in Keys(f.ty.cls) && DotFree(k) && Under(x, GenDbKey(key, k));
          GenDbKeyUnder(key, k);
          UnderTrans(x, GenDbKey(key, k), key);
        }
      }
    }
  }

  lemma {:induction false} DocKeysUnder(v: Val, c: Class, parent: string, n: nat)
    requires WellFormed(c) && CleanKeys(c) && Fits(v, ClassTy(c)) && n <= |c.fields|
    ensures KeysUnder(PatchFields(v, parent, n), parent, KeysUpTo(c, n))
    decreases v, 1, n
  {
    hide WellFormed, CleanKeys, PatchField, FieldKeys;
    if n > 0 {
      DocKeysUnder(v, c, parent, n - 1);
      FieldKeysUnder(v, c, parent, n - 1);
      UnionUnder(PatchFields(v, parent, n - 1), PatchField(c.fields[n - 1], v.vals[n - 1], parent), parent,
                 KeysUpTo(c, n - 1), FieldKeys(c.fields[n - 1]));
    }
  }

  lemma UnionUnder(p1: Doc, p2: Doc, parent: string, k1: set<string>, k2: set<string>)
    requires KeysUnder(p1, parent, k1) && KeysUnder(p2, parent, k2)
    ensures KeysUnder(p1 + p2, parent, k1 + k2)
  {
  }

  /** The payload of the earlier fields and that of the next one share no key. */
  lemma PatchDisjoint(v: Val, c: Class, parent: string, n: nat)
    requires WellFormed(c) && CleanKeys(c) && Fits(v, ClassTy(c)) && n < |c.fields|
    ensures PatchFields(v, parent, n).Keys !! PatchField(c.fields[n], v.vals[n], parent).Keys
  {
    DocKeysUnder(v, c, parent, n);
    FieldKeysUnder(v, c, parent, n);
    KeysDisjoint(c, n, n);
    forall x | x in PatchFields(v, parent, n) && x in PatchField(c.fields[n], v.vals[n], parent)
      ensures false
    {
      var k1 :| k1 in KeysUpTo(c, n) && DotFree(k1) && Under(x, GenDbKey(parent, k1));
      var k2 :| k2 in FieldKeys(c.fields[n]) && DotFree(k2) && Under(x, GenDbKey(parent, k2));
      UnderUnique(x, parent, k1, k2);
    }
  }
}
