/**
  A patch applied to a stored document: the store always accepts it, it sets exactly the
  leaves it names, and it leaves every other one alone, in nested classes too.
*/
module PatchedDocument {
  import opened Codec
  import opened DottedKeys
  import opened DottedSet
  import opened Patch

  // ---------- Documents of a class ----------

  /** Where a field is declared as a class the document holds a document, if anything. */
  ghost predicate Shaped(c: Class, d: Doc)
    decreases c
  {
    forall i :: 0 <= i < |c.fields| ==> FieldShaped(c.fields[i], d)
  }

  ghost predicate FieldShaped(f: Field, d: Doc)
    decreases f
  {
    var meta := MetaOf(f);
    f.ty.ClassTy? && !meta.skip ==>
      if meta.inline then Shaped(f.ty.cls, d)
      else meta.key in d ==> d[meta.key].Dict? && Shaped(f.ty.cls, d[meta.key].entries)
  }

  lemma {:induction false} EmptyIsShaped(c: Class, d: Doc)
    requires d.Keys !! Keys(c)
    ensures Shaped(c, d)
    decreases c
  {
    forall i | 0 <= i < |c.fields|
      ensures FieldShaped(c.fields[i], d)
    {
      var f := c.fields[i];
      KeysContain(c, |c.fields|, i);
      if f.ty.ClassTy? && !MetaOf(f).skip {
        if MetaOf(f).inline {
          assert FieldKeys(f) == Keys(f.ty.cls);
          EmptyIsShaped(f.ty.cls, d);
        } else {
          assert MetaOf(f).key in FieldKeys(f);
        }
      }
    }
  }

  /** Whatever agrees with an encoded instance on the keys of its class is of this shape. */
  lemma {:induction false} EncodedIsShaped(v: Val, c: Class, d: Doc)
    requires WellFormed(c) && Fits(v, ClassTy(c)) && Agree(d, EncodeDoc(v), Keys(c))
    ensures Shaped(c, d)
    decreases v
  {
    forall i | 0 <= i < |c.fields|
      ensures FieldShaped(c.fields[i], d)
    {
      var f, value := c.fields[i], v.vals[i];
      assert FieldFits(f, value) && WellFormedTy(f.ty);
      AgreesOnField(v, c, i, d);
      if f.ty.ClassTy? && !MetaOf(f).skip {
        assert value.Null? || (Fits(value, f.ty) && value.Obj?);
        if value.Null? {
          if MetaOf(f).inline {
            assert FieldKeys(f) == Keys(f.ty.cls);
            EmptyIsShaped(f.ty.cls, d);
          } else {
            assert MetaOf(f).key in FieldKeys(f);
          }
        } else if MetaOf(f).inline {
          EncodedIsShaped(value, f.ty.cls, d);
        } else {
          assert MetaOf(f).key in FieldKeys(f);
          EncodedIsShaped(value, f.ty.cls, EncodeDoc(value));
        }
      }
    }
  }

  // ---------- The keys of a flattened document ----------

  lemma {:induction false} FlattenUnder(c: Class, n: nat, e: Doc, parent: string)
    requires CleanKeys(c) && n <= |c.fields|
    ensures KeysUnder(FlattenFields(c, n, e, parent), parent, KeysUpTo(c, n))
    decreases c, n
  {
    if n > 0 {
      FlattenUnder(c, n - 1, e, parent);
      FlattenFieldUnder(c, n - 1, e, parent);
      UnionUnder(FlattenFields(c, n - 1, e, parent), FlattenField(c.fields[n - 1], e, parent), parent,
                 KeysUpTo(c, n - 1), FieldKeys(c.fields[n - 1]));
    }
  }

  lemma {:induction false} FlattenFieldUnder(c: Class, i: nat, e: Doc, parent: string)
    requires CleanKeys(c) && i < |c.fields|
    ensures KeysUnder(FlattenField(c.fields[i], e, parent), parent, FieldKeys(c.fields[i]))
    decreases c, i
  {
    var f := c.fields[i];
    assert !MetaOf(f).inline && !MetaOf(f).skip ==> DotFree(MetaOf(f).key);
    if f.ty.ClassTy? && !MetaOf(f).skip {
      var cls := f.ty.cls;
      if MetaOf(f).inline {
        FlattenUnder(cls, |cls.fields|, e, parent);
      } else if MetaOf(f).key in e && e[MetaOf(f).key].Dict? {
        var key := GenDbKey(parent, MetaOf(f).key);
        FlattenUnder(cls, |cls.fields|, e[MetaOf(f).key].entries, key);
        NestedUnder(Flatten(cls, e[MetaOf(f).key].entries, key), key, Keys(cls));
      }
    }
  }

  lemma NestedUnder(p: Doc, key: string, keys: set<string>)
    requires key != "" && KeysUnder(p, key, keys)
    ensures forall x :: x in p ==> Under(x, key) && x != key
  {
    forall x | x in p
      ensures Under(x, key) && x != key
    {
      var k :| k in keys && DotFree(k) && Under(x, GenDbKey(key, k));
      GenDbKeyUnder(key, k);
      UnderTrans(x, GenDbKey(key, k), key);
    }
  }

  // ---------- Nested classes keep their form below a key ----------

  /** The key `q` below the key `top`; the empty `q` is `top` itself. */
  function Down(top: string, q: string): string {
    if q == "" then top else top + "." + q
  }

  lemma GenDbKeyBelow(top: string, q: string, key: string)
    requires top != "" && key != ""
    ensures GenDbKey(Down(top, q), key) == top + "." + GenDbKey(q, key) == Down(top, GenDbKey(q, key))
  {
    Regroup(top, q, key);
  }

  /** The two payloads are the same, the second below the key `top`. */
  ghost predicate Shifted(p: Doc, p': Doc, top: string) {
    forall t: string {:trigger t in p} {:trigger top + "." + t in p'} ::
      (t in p <==> top + "." + t in p') && (t in p ==> p[t] == p'[top + "." + t])
  }

  lemma {:induction false} FlattenShifts(c: Class, n: nat, e: Doc, q: string, q': string, top: string)
    requires CleanKeys(c) && n <= |c.fields| && top != "" && q' == Down(top, q)
    ensures Shifted(FlattenFields(c, n, e, q), FlattenFields(c, n, e, q'), top)
    decreases c, n
  {
    if n > 0 {
      var last := n - 1;
      FlattenShifts(c, last, e, q, q', top);
      FieldShifts(c, last, e, q, q', top);
      FlattenStep(c, last, e, q);
      FlattenStep(c, last, e, q');
      ShiftedUnion(FlattenFields(c, last, e, q), FlattenField(c.fields[last], e, q), FlattenFields(c, n, e, q),
                   FlattenFields(c, last, e, q'), FlattenField(c.fields[last], e, q'), FlattenFields(c, n, e, q'), top);
    }
  }

  lemma {:induction false} FlattenStep(c: Class, n: nat, e: Doc, q: string)
    requires n < |c.fields|
    ensures FlattenFields(c, n + 1, e, q) == FlattenFields(c, n, e, q) + FlattenField(c.fields[n], e, q)
  {
  }

  lemma ShiftedUnion(p1: Doc, p2: Doc, p: Doc, p1': Doc, p2': Doc, p': Doc, top: string)
    requires p == p1 + p2 && p' == p1' + p2'
    requires Shifted(p1, p1', top) && Shifted(p2, p2', top)
    ensures Shifted(p, p', top)
  {
  }

  lemma {:induction false} FieldShifts(c: Class, i: nat, e: Doc, q: string, q': string, top: string)
    requires CleanKeys(c) && i < |c.fields| && top != "" && q' == Down(top, q)
    ensures Shifted(FlattenField(c.fields[i], e, q), FlattenField(c.fields[i], e, q'), top)
    decreases c, i
  {
    var f := c.fields[i];
    assert !MetaOf(f).inline && !MetaOf(f).skip ==> DotFree(MetaOf(f).key);
    if MetaOf(f).skip {
    } else if MetaOf(f).inline {
      if f.ty.ClassTy? {
        FlattenShifts(f.ty.cls, |f.ty.cls.fields|, e, q, q', top);
      }
    } else if MetaOf(f).key in e {
      var key := GenDbKey(q, MetaOf(f).key);
      GenDbKeyBelow(top, q, MetaOf(f).key);
      if f.ty.ClassTy? && e[MetaOf(f).key].Dict? {
        var key' := Down(top, key);
        FlattenShifts(f.ty.cls, |f.ty.cls.fields|, e[MetaOf(f).key].entries, key, key', top);
      } else {
        OneShifts(key, e[MetaOf(f).key], top);
      }
    }
  }

  lemma OneShifts(key: string, v: Val, top: string)
    ensures Shifted(map[key := v], map[top + "." + key := v], top)
  {
    forall t: string | top + "." + t == top + "." + key
      ensures t == key
    {
      assert t == (top + "." + t)[|top| + 1..] == (top + "." + key)[|top| + 1..] == key;
    }
  }

  // ---------- The update is accepted ----------

  /** The two payloads are the same at and below a key. */
  ghost predicate SameUnder(p: Doc, q: Doc, h: string) {
    forall k: string :: Under(k, h) ==> (k in p <==> k in q) && (k in p ==> p[k] == q[k])
  }

  ghost predicate NothingUnder(p: Doc, h: string) {
    forall k :: k in p ==> !Under(k, h)
  }

  lemma OtherKeysOnly(p: Doc, keys: set<string>, h: string)
    requires KeysUnder(p, "", keys) && DotFree(h) && h !in keys
    ensures NothingUnder(p, h)
  {
    forall k | k in p
      ensures !Under(k, h)
    {
      var other :| other in keys && DotFree(other) && Under(k, GenDbKey("", other));
      if Under(k, h) {
        UnderUnique(k, "", other, h);
      }
    }
  }

  lemma SameInUnion(p1: Doc, p2: Doc, p: Doc, q: Doc, h: string)
    requires p == p1 + p2
    requires (SameUnder(p1, q, h) && NothingUnder(p2, h)) || (NothingUnder(p1, h) && SameUnder(p2, q, h))
    ensures SameUnder(p, q, h)
  {
  }

  lemma {:induction false} KeysAreDotFree(c: Class, n: nat, h: string)
    requires CleanKeys(c) && n <= |c.fields| && h in KeysUpTo(c, n)
    ensures DotFree(h)
    decreases c, n
  {
    var f := c.fields[n - 1];
    assert !MetaOf(f).inline && !MetaOf(f).skip ==> DotFree(MetaOf(f).key);
    assert f.ty.ClassTy? ==> CleanKeys(f.ty.cls);
    if h in KeysUpTo(c, n - 1) {
      KeysAreDotFree(c, n - 1, h);
    } else if MetaOf(f).inline {
      assert h in FieldKeys(f) && FieldKeys(f) == Keys(f.ty.cls);
      KeysAreDotFree(f.ty.cls, |f.ty.cls.fields|, h);
    }
  }

  /** Each key of a class, inlined ones too, has one field, and what is flattened under it is that field's. */
  lemma {:induction false} Owner(c: Class, n: nat, e: Doc, d: Doc, h: string) returns (f: Field)
    requires WellFormed(c) && CleanKeys(c) && Shaped(c, d) && n <= |c.fields| && h in KeysUpTo(c, n)
    ensures !MetaOf(f).skip && !MetaOf(f).inline && MetaOf(f).key == h
    ensures f.ty.ClassTy? ==> WellFormed(f.ty.cls) && CleanKeys(f.ty.cls) && f.ty.cls < c
    ensures FieldShaped(f, d)
    ensures SameUnder(FlattenFields(c, n, e, ""), FlattenField(f, e, ""), h)
    decreases c, n
  {
    var last := n - 1;
    var g := c.fields[last];
    assert WellFormedTy(g.ty) && FieldShaped(g, d) && (g.ty.ClassTy? ==> CleanKeys(g.ty.cls));
    KeysAreDotFree(c, n, h);
    FlattenStep(c, last, e, "");
    FlattenUnder(c, last, e, "");
    FlattenFieldUnder(c, last, e, "");
    KeysDisjoint(c, last, last);
    if h in FieldKeys(g) {
      if MetaOf(g).inline {
        f := Owner(g.ty.cls, |g.ty.cls.fields|, e, d, h);
      } else {
        f := g;
      }
      OtherKeysOnly(FlattenFields(c, last, e, ""), KeysUpTo(c, last), h);
    } else {
      f := Owner(c, last, e, d, h);
      OtherKeysOnly(FlattenField(g, e, ""), FieldKeys(g), h);
    }
    SameInUnion(FlattenFields(c, last, e, ""), FlattenField(g, e, ""), FlattenFields(c, n, e, ""),
                FlattenField(f, e, ""), h);
  }

  /** The heads of a flattened document are keys of the class. */
  lemma HeadIsKey(c: Class, e: Doc, h: string)
    requires CleanKeys(c) && h in Heads(Flatten(c, e, ""))
    ensures h in Keys(c) && DotFree(h)
    ensures exists k :: k in Flatten(c, e, "") && Under(k, h)
  {
    FlattenUnder(c, |c.fields|, e, "");
    var k :| k in Flatten(c, e, "") && Head(k) == h;
    var top := TopOf(Flatten(c, e, ""), Keys(c), k);
    HeadUnder(k, top);
  }

  lemma TopOf(p: Doc, keys: set<string>, k: string) returns (top: string)
    requires KeysUnder(p, "", keys) && k in p
    ensures top in keys && DotFree(top) && Under(k, top)
  {
    top :| top in keys && DotFree(top) && Under(k, GenDbKey("", top));
  }

  lemma HeadUnder(k: string, top: string)
    requires DotFree(top) && Under(k, top)
    ensures Head(k) == top
  {
    if k == top {
      HeadOf(top, "");
    } else {
      var t := k[|top| + 1..];
      HeadOf(top, t);
      assert k == k[..|top|] + [k[|top|]] + t;
    }
  }

  lemma SameBelow(p: Doc, q: Doc, h: string)
    requires SameUnder(p, q, h)
    ensures Below(p, h) == Below(q, h) && (h in p <==> h in q)
  {
    assert Under(h, h);
    forall t: string
      ensures h + "." + t in p <==> h + "." + t in q
      ensures h + "." + t in p ==> p[h + "." + t] == q[h + "." + t]
    {
      assert Under(h + "." + t, h);
    }
    assert Below(p, h).Keys == Below(q, h).Keys;
  }

  /** What is flattened below a field declared as a class is the nested document, flattened. */
  lemma NestedBelow(c: Class, e: Doc, h: string)
    requires CleanKeys(c) && h != ""
    ensures Below(Flatten(c, e, h), h) == Flatten(c, e, "") && h !in Flatten(c, e, h)
  {
    FlattenShifts(c, |c.fields|, e, "", h, h);
    FlattenUnder(c, |c.fields|, e, h);
    NestedUnder(Flatten(c, e, h), h, Keys(c));
    BelowShifted(Flatten(c, e, ""), Flatten(c, e, h), h);
  }

  lemma BelowShifted(p: Doc, p': Doc, h: string)
    requires Shifted(p, p', h)
    ensures Below(p', h) == p
  {
    assert Below(p', h).Keys == p.Keys;
  }

  /** A flattened document can be set on every document of the shape of its class. */
  lemma {:induction false} FlattenIsSettable(c: Class, d: Doc, e: Doc)
    requires WellFormed(c) && CleanKeys(c) && Shaped(c, d)
    ensures Settable(d, Flatten(c, e, ""))
    decreases c
  {
    var p := Flatten(c, e, "");
    forall h | h in Heads(p)
      ensures h != "" && (h in p ==> Below(p, h) == map[])
      ensures Below(p, h) != map[] ==> (h in d ==> d[h].Dict?) && Settable(Inner(d, h), Below(p, h))
    {
      HeadIsKey(c, e, h);
      var f := Owner(c, |c.fields|, e, d, h);
      SameBelow(p, FlattenField(f, e, ""), h);
      if f.ty.ClassTy? && h in e && e[h].Dict? {
        NestedBelow(f.ty.cls, e[h].entries, h);
        if h !in d {
          EmptyIsShaped(f.ty.cls, map[]);
        }
        FlattenIsSettable(f.ty.cls, Inner(d, h), e[h].entries);
      } else {
        NothingBelowLeaf(f, e, h);
      }
    }
  }

  lemma NothingBelowLeaf(f: Field, e: Doc, h: string)
    requires !MetaOf(f).skip && !MetaOf(f).inline && MetaOf(f).key == h
    requires !(f.ty.ClassTy? && h in e && e[h].Dict?)
    ensures Below(FlattenField(f, e, ""), h) == map[]
  {
    forall t: string
      ensures h + "." + t !in FlattenField(f, e, "")
    {
      assert |h + "." + t| > |h|;
    }
    assert Below(FlattenField(f, e, ""), h).Keys == {};
  }

  /**
    A patch on a stored document of its class: the store accepts it, every leaf it names
    gets the new value, and every other leaf, in nested classes too, stays as it was.
  */
  lemma PatchedLeaves(v: Val, w: Val, c: Class, nodes: seq<string>)
    requires WellFormed(c) && Shown(c) && CleanKeys(c) && Fits(v, ClassTy(c)) && Fits(w, ClassTy(c))
    requires Clean(nodes)
    ensures var stored, payload := EncodeDoc(w), Encoded(PatchDoc(v, ""));
            Settable(stored, payload) && LeafLaw(stored, payload, SetFields(stored, payload), nodes)
  {
    var stored, payload := EncodeDoc(w), Encoded(PatchDoc(v, ""));
    PatchAgreesWithEncoder(v, c);
    EncodedIsShaped(w, c, stored);
    FlattenIsSettable(c, stored, EncodeDoc(v));
    LeafOfSet(stored, payload, nodes);
  }
}
