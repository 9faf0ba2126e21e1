/**
  The document codec of the Mongo repository: dataclass instances to documents and back,
  directed by the field metadata.
*/
module Codec {
  import opened Strings
  import opened Wrappers

  /**
    A Python value as the codec tells them apart. `Atom` stands for a scalar other than
    an integer or a string, one from which no integer can be made. `Obj` is an instance
    of a dataclass: its field values in the order of its fields.
  */
  datatype Val =
    | Null
    | Int(n: int)
    | Str(text: string)
    | Atom(id: int)
    | Snow(id64: nat)
    | Arr(items: seq<Val>)
    | Tup(elems: seq<Val>)
    | Dict(entries: map<string, Val>)
    | Obj(cls: Class, vals: seq<Val>)

  datatype Class = Class(fields: seq<Field>)

  /** A dataclass field: its name, its "bson" metadata, its declared type and its default, if any. */
  datatype Field = Field(name: string, meta: Option<string>, ty: Ty, default: Option<Val>)

  /** A declared type with `Optional` removed: what `decode_value` looks for, or anything else. */
  datatype Ty = AnyTy | SnowTy | ClassTy(cls: Class) | ListTy(item: Ty)

  datatype DecodeError = BadSnowflake | MissingArgument

  type Doc = map<string, Val>

  const ID_KEY := "_id"

  // ---------- Field metadata ----------

  function SplitComma(s: string): (parts: seq<string>)
    ensures |parts| >= 1
  {
    if s == "" then [""]
    else
      var rest := SplitComma(s[1..]);
      if s[0] == ',' then [""] + rest else [[s[0]] + rest[0]] + rest[1..]
  }

  function FieldName(name: string): string {
    if name == "id" then "_id" else name
  }

  /** The document key of a field, whether it is inlined and whether it is left out. */
  datatype Meta = Meta(key: string, inline: bool, skip: bool)

  function ParseBsonMeta(name: string, meta: Option<string>): Meta {
    if meta.None? || meta.value == "" then
      Meta(FieldName(name), false, false)
    else
      var parts := seq(|SplitComma(meta.value)|, i requires 0 <= i < |SplitComma(meta.value)| =>
        Strip(SplitComma(meta.value)[i]));
      var head := parts[0];
      Meta(
        if head == "-" || head == "inline" || head == "" then FieldName(name) else head,
        head == "inline" || "inline" in parts[1..],
        head == "-")
  }

  function MetaOf(f: Field): Meta {
    ParseBsonMeta(f.name, f.meta)
  }

  // ---------- Encoding ----------

  /** How many fields of an instance have a value (all of them, for a real instance). */
  function Arity(v: Val): nat
    requires v.Obj?
  {
    if |v.vals| < |v.cls.fields| then |v.vals| else |v.cls.fields|
  }

  /** The payload after the first `n` fields. */
  function EncodeFields(v: Val, n: nat): Doc
    requires v.Obj? && n <= Arity(v)
    decreases v, 0, n
  {
    if n == 0 then map[]
    else
      var payload := EncodeFields(v, n - 1);
      var value := v.vals[n - 1];
      var meta := MetaOf(v.cls.fields[n - 1]);
      if value.Null? || meta.skip then payload
      else if value.Obj? then
        if meta.inline then payload + EncodeDoc(value) else payload[meta.key := Dict(EncodeDoc(value))]
      else payload[meta.key := Encode(value)]
  }

  /** A key spelled "id" by metadata moves to the id key. */
  function RenameId(payload: Doc): Doc {
    if "id" in payload then (payload - {"id"})[ID_KEY := payload["id"]] else payload
  }

  function EncodeDoc(v: Val): Doc
    requires v.Obj?
    decreases v, 1
  {
    RenameId(EncodeFields(v, Arity(v)))
  }

  function Encode(v: Val): Val
    decreases v, 2
  {
    match v
    case Snow(n) => Int(n)
    case Obj(_, _) => Dict(EncodeDoc(v))
    case Dict(entries) => Dict(map k | k in entries :: Encode(entries[k]))
    case Arr(items) => Arr(EncodeAll(items))
    case Tup(elems) => Arr(EncodeAll(elems))
    case _ => v
  }

  function EncodeAll(items: seq<Val>): (r: seq<Val>)
    ensures |r| == |items|
    ensures forall i :: 0 <= i < |items| ==> r[i] == Encode(items[i])
    decreases items
  {
    if items == [] then [] else [Encode(items[0])] + EncodeAll(items[1..])
  }

  // ---------- Decoding ----------

  /** The SnowflakeID constructor. */
  function MakeSnowflake(v: Val): Result<Val, DecodeError> {
    match v
    case Int(n) => if n < 0 then Err(BadSnowflake) else Ok(Snow(n))
    case Snow(n) => Ok(Snow(n))
    case Str(s) =>
      var number := ParseDigits(Strip(s));
      if Strip(s) != "" && number.Some? then Ok(Snow(number.value)) else Err(BadSnowflake)
    case _ => Err(BadSnowflake)
  }

  function Decode(ty: Ty, v: Val): Result<Val, DecodeError>
    decreases ty, 0
  {
    match ty
    case SnowTy => MakeSnowflake(v)
    case ClassTy(c) => if v.Dict? then DecodeClass(c, v.entries) else Ok(v)
    case ListTy(item) =>
      if v.Arr? then
        var r := DecodeAll(item, v.items);
        if r.Ok? then Ok(Arr(r.value)) else Err(r.error)
      else Ok(v)
    case AnyTy => Ok(v)
  }

  function DecodeAll(item: Ty, vs: seq<Val>): Result<seq<Val>, DecodeError>
    decreases item, 1, |vs|
  {
    if vs == [] then Ok([])
    else
      var first := Decode(item, vs[0]);
      if first.Err? then Err(first.error)
      else
        var rest := DecodeAll(item, vs[1..]);
        if rest.Err? then Err(rest.error) else Ok([first.value] + rest.value)
  }

  /** The keyword argument a field contributes: none when its key is missing. */
  function Kwarg(f: Field, doc: Doc): Result<Option<Val>, DecodeError>
    decreases f, 0
  {
    var meta := MetaOf(f);
    if meta.skip then Ok(None)
    else if meta.inline then
      if f.ty.ClassTy? then
        var r := DecodeClass(f.ty.cls, doc);
        if r.Ok? then Ok(Some(r.value)) else Err(r.error)
      else Ok(None)
    else if meta.key !in doc then Ok(None)
    else
      var r := Decode(f.ty, doc[meta.key]);
      if r.Ok? then Ok(Some(r.value)) else Err(r.error)
  }

  /** The keyword arguments of the first `n` fields. */
  function Kwargs(c: Class, n: nat, doc: Doc): (r: Result<seq<Option<Val>>, DecodeError>)
    requires n <= |c.fields|
    ensures r.Ok? ==> |r.value| == n
    decreases c, 0, n
  {
    if n == 0 then Ok([])
    else
      var before := Kwargs(c, n - 1, doc);
      if before.Err? then before
      else
        var kwarg := Kwarg(c.fields[n - 1], doc);
        if kwarg.Err? then Err(kwarg.error) else Ok(before.value + [kwarg.value])
  }

  /** The dataclass constructor: a missing argument takes the default, or is an error. */
  function Construct(c: Class, kwargs: seq<Option<Val>>): Result<Val, DecodeError>
    requires |kwargs| == |c.fields|
  {
    if exists i :: 0 <= i < |kwargs| && kwargs[i].None? && c.fields[i].default.None? then
      Err(MissingArgument)
    else
      Ok(Obj(c, seq(|kwargs|, i requires 0 <= i < |kwargs| && (kwargs[i].Some? || c.fields[i].default.Some?) =>
        if kwargs[i].Some? then kwargs[i].value else c.fields[i].default.value)))
  }

  function DecodeClass(c: Class, doc: Doc): Result<Val, DecodeError>
    decreases c, 1
  {
    var kwargs := Kwargs(c, |c.fields|, doc);
    if kwargs.Err? then Err(kwargs.error) else Construct(c, kwargs.value)
  }

  /** A document that lacks an argument is handed back as it is. */
  function DecodeDocument(c: Class, doc: Doc): Result<Val, DecodeError> {
    var r := DecodeClass(c, doc);
    if r == Err(MissingArgument) then Ok(Dict(doc)) else r
  }

  // ---------- Well-formed schemas and values ----------

  /** The document keys a field writes and reads. */
  function FieldKeys(f: Field): set<string>
    decreases f, 0
  {
    var meta := MetaOf(f);
    if meta.skip then {}
    else if meta.inline then (if f.ty.ClassTy? then Keys(f.ty.cls) else {})
    else {meta.key}
  }

  function KeysUpTo(c: Class, n: nat): set<string>
    requires n <= |c.fields|
    decreases c, 0, n
  {
    if n == 0 then {} else KeysUpTo(c, n - 1) + FieldKeys(c.fields[n - 1])
  }

  function Keys(c: Class): set<string>
    decreases c, 1
  {
    KeysUpTo(c, |c.fields|)
  }

  /** The parts of the metadata text, between commas. */
  ghost function Parts(f: Field): (parts: seq<string>)
    ensures |parts| >= 1
  {
    if f.meta.None? then
      [""]
    else
      seq(|SplitComma(f.meta.value)|, i requires 0 <= i < |SplitComma(f.meta.value)| =>
        Strip(SplitComma(f.meta.value)[i]))
  }

  /** The metadata asks for the key "id", spelled like this. */
  ghost predicate SpellsId(f: Field) {
    Parts(f)[0] == "id"
  }

  ghost predicate SaysInline(f: Field) {
    Parts(f)[0] == "inline" || "inline" in Parts(f)[1..]
  }

  /**
    Among the fields that are not left out: inlined ones are dataclasses, no metadata
    spells a key "id", and after inlining no two fields share a key.
  */
  ghost predicate WellFormed(c: Class)
    decreases c
  {
    && (forall i :: 0 <= i < |c.fields| ==>
          var f := c.fields[i];
          && (MetaOf(f).inline && !MetaOf(f).skip ==> f.ty.ClassTy?)
          && (SpellsId(f) ==> SaysInline(f))
          && WellFormedTy(f.ty))
    && (forall i, j :: 0 <= i < j < |c.fields| ==> FieldKeys(c.fields[i]) !! FieldKeys(c.fields[j]))
  }

  ghost predicate WellFormedTy(ty: Ty)
    decreases ty
  {
    match ty
    case ClassTy(c) => WellFormed(c)
    case ListTy(item) => WellFormedTy(item)
    case _ => true
  }

  /** A value that the store keeps as it is: nothing in it is encoded. */
  predicate Plain(v: Val) {
    match v
    case Arr(items) => forall i :: 0 <= i < |items| ==> Plain(items[i])
    case Dict(entries) => forall k :: k in entries ==> Plain(entries[k])
    case Snow(_) => false
    case Tup(_) => false
    case Obj(_, _) => false
    case _ => true
  }

  /** The value has the declared type; list items may be None. */
  ghost predicate Fits(v: Val, ty: Ty)
    decreases v, 0
  {
    match ty
    case AnyTy => Plain(v)
    case SnowTy => v.Snow?
    case ListTy(item) => v.Arr? && forall i :: 0 <= i < |v.items| ==> v.items[i].Null? || Fits(v.items[i], item)
    case ClassTy(c) =>
      && v.Obj? && v.cls == c && |v.vals| == |c.fields|
      && forall i :: 0 <= i < |v.vals| ==> FieldFits(c.fields[i], v.vals[i])
  }

  /** A field holds None or a value of its type; one that is left out may hold anything. */
  ghost predicate FieldFits(f: Field, v: Val)
    decreases v, 1
  {
    MetaOf(f).skip || v.Null? || Fits(v, f.ty)
  }

  /**
    What a caller can check before encoding: wherever the store keeps nothing of a field,
    decoding finds its value again. A field that is left out has its default as value, a
    field that is None defaults to None and is not inlined, and no list of SnowflakeIDs
    has a None item.
  */
  ghost predicate Returns(v: Val, ty: Ty)
    requires Fits(v, ty)
    decreases v, 0
  {
    match ty
    case ListTy(item) =>
      forall i :: 0 <= i < |v.items| ==>
        if v.items[i].Null? && !Fits(v.items[i], item) then !item.SnowTy? else Returns(v.items[i], item)
    case ClassTy(c) => forall i :: 0 <= i < |v.vals| ==> FieldReturns(c.fields[i], v.vals[i])
    case _ => true
  }

  ghost predicate FieldReturns(f: Field, v: Val)
    requires FieldFits(f, v)
    decreases v, 1
  {
    if MetaOf(f).skip then f.default == Some(v)
    else if v.Null? then !MetaOf(f).inline && f.default == Some(Null)
    else Returns(v, f.ty)
  }

  // ---------- What the metadata means ----------

  /** The key that a field is stored under: the first part of its metadata, or else its name, with "id" as "_id". */
  ghost function StoredKey(f: Field): string {
    if Parts(f)[0] != "" && Parts(f)[0] != "inline" then Parts(f)[0] else if f.name == "id" then "_id" else f.name
  }

  lemma MetaReads(f: Field)
    ensures MetaOf(f).skip <==> Parts(f)[0] == "-"
    ensures MetaOf(f).inline <==> SaysInline(f)
    ensures Parts(f)[0] != "-" ==> MetaOf(f).key == StoredKey(f)
    ensures !SpellsId(f) ==> MetaOf(f).key != "id"
  {
    if f.meta == Some("") {
      assert SplitComma("") == [""] && Strip("") == "";
    }
  }

  // ---------- What the payload contains ----------

  /** What one field adds to the payload. */
  function Contribution(f: Field, v: Val): Doc {
    if v.Null? || MetaOf(f).skip then map[]
    else if MetaOf(f).inline && v.Obj? then EncodeDoc(v)
    else map[MetaOf(f).key := Encode(v)]
  }

  /** The two documents agree on a set of keys. */
  ghost predicate Agree(d: Doc, p: Doc, keys: set<string>) {
    forall k :: k in keys ==> (k in d <==> k in p) && (k in d ==> d[k] == p[k])
  }

  lemma EncodeFieldsStep(v: Val, n: nat)
    requires v.Obj? && n < Arity(v)
    requires WellFormed(v.cls) && FieldFits(v.cls.fields[n], v.vals[n])
    ensures EncodeFields(v, n + 1) == EncodeFields(v, n) + Contribution(v.cls.fields[n], v.vals[n])
  {
    var f := v.cls.fields[n];
    assert MetaOf(f).inline && !MetaOf(f).skip ==> f.ty.ClassTy?;
  }

  lemma {:induction false} EncodePlain(v: Val)
    requires Plain(v)
    ensures Encode(v) == v
    decreases v
  {
    match v
    case Arr(items) =>
      forall i | 0 <= i < |items|
        ensures Encode(items[i]) == items[i]
      {
        EncodePlain(items[i]);
      }
      assert EncodeAll(items) == items;
    case Dict(entries) =>
      forall k | k in entries
        ensures Encode(entries[k]) == entries[k]
      {
        EncodePlain(entries[k]);
      }
      assert (map k | k in entries :: Encode(entries[k])) == entries;
    case _ =>
  }

  lemma {:induction false} KeysContain(c: Class, n: nat, i: nat)
    requires i < n <= |c.fields|
    ensures FieldKeys(c.fields[i]) <= KeysUpTo(c, n)
    decreases n
  {
    if i < n - 1 {
      KeysContain(c, n - 1, i);
    }
  }

  lemma {:induction false} NoIdKey(c: Class, n: nat)
    requires WellFormed(c) && n <= |c.fields|
    ensures "id" !in KeysUpTo(c, n)
    decreases c, 0, n
  {
    if n > 0 {
      NoIdKey(c, n - 1);
      NoIdField(c, n - 1);
    }
  }

  lemma {:induction false} NoIdField(c: Class, i: nat)
    requires WellFormed(c) && i < |c.fields|
    ensures "id" !in FieldKeys(c.fields[i])
    decreases c.fields[i]
  {
    var f := c.fields[i];
    assert WellFormedTy(f.ty) && (SpellsId(f) ==> SaysInline(f));
    MetaReads(f);
    if MetaOf(f).inline && !MetaOf(f).skip {
      NoIdKey(f.ty.cls, |f.ty.cls.fields|);
    }
  }

  lemma {:induction false} KeysDisjoint(c: Class, n: nat, i: nat)
    requires WellFormed(c) && n <= i < |c.fields|
    ensures KeysUpTo(c, n) !! FieldKeys(c.fields[i])
    decreases n
  {
    hide SpellsId, SaysInline, WellFormedTy, FieldKeys;
    if n > 0 {
      KeysDisjoint(c, n - 1, i);
    }
  }

  /** The payload of an instance only has keys of its class. */
  lemma {:induction false} FieldsKeys(v: Val, c: Class, n: nat)
    requires WellFormed(c) && Fits(v, ClassTy(c)) && n <= |c.fields|
    ensures EncodeFields(v, n).Keys <= KeysUpTo(c, n)
    decreases v, 0, n
  {
    hide SpellsId, SaysInline;
    if n > 0 {
      FieldsKeys(v, c, n - 1);
      var f, value := c.fields[n - 1], v.vals[n - 1];
      assert FieldFits(f, value) && WellFormedTy(f.ty);
      EncodeFieldsStep(v, n - 1);
      if MetaOf(f).inline && !MetaOf(f).skip && !value.Null? {
        assert WellFormedTy(f.ty);
        DocKeys(value, f.ty.cls);
      }
    }
  }

  /** ... and none of them is renamed. */
  lemma {:induction false} DocKeys(v: Val, c: Class)
    requires WellFormed(c) && Fits(v, ClassTy(c))
    ensures EncodeDoc(v) == EncodeFields(v, |c.fields|)
    ensures EncodeDoc(v).Keys <= Keys(c)
    decreases v, 1
  {
    FieldsKeys(v, c, |c.fields|);
    NoIdKey(c, |c.fields|);
  }

  /** Later fields leave what an earlier one wrote: on its own keys the payload is its contribution. */
  lemma {:induction false} PayloadAtField(v: Val, c: Class, n: nat, i: nat)
    requires WellFormed(c) && Fits(v, ClassTy(c)) && i < n <= |c.fields|
    ensures Agree(EncodeFields(v, n), Contribution(c.fields[i], v.vals[i]), FieldKeys(c.fields[i]))
    decreases n
  {
    hide SpellsId, SaysInline, MetaOf;
    var last := n - 1;
    assert FieldFits(c.fields[last], v.vals[last]) && FieldFits(c.fields[i], v.vals[i]);
    EncodeFieldsStep(v, last);
    FieldsKeys(v, c, last);
    if i < last {
      PayloadAtField(v, c, last, i);
      ContributionKeys(c.fields[last], v.vals[last]);
    } else {
      KeysDisjoint(c, last, i);
    }
  }

  lemma ContributionKeys(f: Field, v: Val)
    requires FieldFits(f, v) && WellFormedTy(f.ty)
    requires MetaOf(f).inline && !MetaOf(f).skip ==> f.ty.ClassTy?
    ensures Contribution(f, v).Keys <= FieldKeys(f)
  {
    if MetaOf(f).inline && !MetaOf(f).skip && !v.Null? {
      DocKeys(v, f.ty.cls);
    }
  }

  // ---------- The round trip ----------

  /** The value a constructor argument ends up with. */
  function Settled(kwarg: Option<Val>, f: Field): Option<Val> {
    if kwarg.Some? then kwarg else f.default
  }

  /** Decoding an encoded value gives it back exactly when what the store does not keep returns. */
  lemma {:induction false} ValueRoundTrip(v: Val, ty: Ty)
    requires WellFormedTy(ty) && Fits(v, ty)
    ensures Decode(ty, Encode(v)) == Ok(v) <==> Returns(v, ty)
    decreases v, 3
  {
    match ty
    case AnyTy => EncodePlain(v);
    case SnowTy =>
    case ListTy(item) =>
      assert ItemsFit(v.items, item);
      ListRoundTrip(v.items, item);
      assert Returns(v, ty) <==> ItemsReturn(v.items, item);
    case ClassTy(c) => InstanceRoundTrip(v, c, EncodeDoc(v));
  }

  ghost predicate ItemFits(v: Val, item: Ty) {
    v.Null? || Fits(v, item)
  }

  ghost predicate ItemReturns(v: Val, item: Ty)
    requires ItemFits(v, item)
  {
    if v.Null? && !Fits(v, item) then !item.SnowTy? else Returns(v, item)
  }

  ghost predicate ItemsFit(items: seq<Val>, item: Ty) {
    forall i :: 0 <= i < |items| ==> ItemFits(items[i], item)
  }

  ghost predicate ItemsReturn(items: seq<Val>, item: Ty)
    requires ItemsFit(items, item)
  {
    forall i :: 0 <= i < |items| ==> ItemReturns(items[i], item)
  }

  lemma ItemsReturnCons(items: seq<Val>, item: Ty)
    requires items != [] && ItemsFit(items, item)
    ensures ItemFits(items[0], item) && ItemsFit(items[1..], item)
    ensures ItemsReturn(items, item) <==> ItemReturns(items[0], item) && ItemsReturn(items[1..], item)
  {
    assert forall i :: 0 <= i < |items[1..]| ==> items[1..][i] == items[i + 1];
    if ItemReturns(items[0], item) && ItemsReturn(items[1..], item) {
      forall i | 0 <= i < |items|
        ensures ItemReturns(items[i], item)
      {
        if i > 0 {
          assert items[i] == items[1..][i - 1];
        }
      }
    }
  }

  lemma {:induction false} ListRoundTrip(items: seq<Val>, item: Ty)
    requires WellFormedTy(item) && ItemsFit(items, item)
    ensures DecodeAll(item, EncodeAll(items)) == Ok(items) <==> ItemsReturn(items, item)
    decreases items, 4
  {
    if items != [] {
      var first, rest := items[0], items[1..];
      ItemsReturnCons(items, item);
      if Fits(first, item) {
        ValueRoundTrip(first, item);
      }
      ListRoundTrip(rest, item);
      assert EncodeAll(items)[0] == Encode(first) && EncodeAll(items)[1..] == EncodeAll(rest);
      assert items == [first] + rest;
    }
  }

  /**
    Decoding a class from any document that agrees with the encoded instance on the keys
    of the class: the document may be the one of an enclosing instance.
  */
  lemma {:induction false} InstanceRoundTrip(v: Val, c: Class, d: Doc)
    requires WellFormed(c) && Fits(v, ClassTy(c))
    requires Agree(d, EncodeDoc(v), Keys(c))
    ensures DecodeClass(c, d) == Ok(v) <==> Returns(v, ClassTy(c))
    decreases v, 2
  {
    KwargsRoundTrip(v, c, |c.fields|, d);
    var kwargs := Kwargs(c, |c.fields|, d);
    if kwargs.Ok? {
      ConstructSettles(v, c, kwargs.value);
    }
  }

  /** The first `n` arguments end up with the values of the instance. */
  ghost predicate AllSettled(v: Val, c: Class, kwargs: seq<Option<Val>>)
    requires |kwargs| <= |c.fields| && Fits(v, ClassTy(c))
  {
    forall i :: 0 <= i < |kwargs| ==> Settled(kwargs[i], c.fields[i]) == Some(v.vals[i])
  }

  lemma ConstructSettles(v: Val, c: Class, kwargs: seq<Option<Val>>)
    requires |kwargs| == |c.fields| && Fits(v, ClassTy(c))
    ensures Construct(c, kwargs) == Ok(v) <==> AllSettled(v, c, kwargs)
  {
    var r := Construct(c, kwargs);
    if AllSettled(v, c, kwargs) {
      forall i | 0 <= i < |kwargs|
        ensures kwargs[i].Some? || c.fields[i].default.Some?
      {
        assert Settled(kwargs[i], c.fields[i]) == Some(v.vals[i]);
      }
      assert r.value.vals == v.vals;
    }
  }

  ghost predicate FieldsReturn(v: Val, c: Class, n: nat)
    requires n <= |c.fields| && Fits(v, ClassTy(c))
  {
    forall i :: 0 <= i < n ==> FieldReturns(c.fields[i], v.vals[i])
  }

  lemma FieldsReturnSnoc(v: Val, c: Class, n: nat)
    requires n < |c.fields| && Fits(v, ClassTy(c))
    ensures FieldsReturn(v, c, n + 1) <==> FieldsReturn(v, c, n) && FieldReturns(c.fields[n], v.vals[n])
  {
  }

  lemma {:induction false} KwargsRoundTrip(v: Val, c: Class, n: nat, d: Doc)
    requires WellFormed(c) && Fits(v, ClassTy(c)) && n <= |c.fields|
    requires Agree(d, EncodeDoc(v), Keys(c))
    ensures Kwargs(c, n, d).Ok? && AllSettled(v, c, Kwargs(c, n, d).value) <==> FieldsReturn(v, c, n)
    decreases v, 1, n
  {
    if n > 0 {
      KwargsRoundTrip(v, c, n - 1, d);
      FieldRoundTrip(v, c, n - 1, d);
      var before, kwarg := Kwargs(c, n - 1, d), Kwarg(c.fields[n - 1], d);
      FieldsReturnSnoc(v, c, n - 1);
      if before.Ok? && kwarg.Ok? {
        SettledSnoc(v, c, before.value, kwarg.value);
      }
    }
  }

  lemma SettledSnoc(v: Val, c: Class, kwargs: seq<Option<Val>>, kwarg: Option<Val>)
    requires |kwargs| < |c.fields| && Fits(v, ClassTy(c))
    ensures AllSettled(v, c, kwargs + [kwarg]) <==>
            AllSettled(v, c, kwargs) && Settled(kwarg, c.fields[|kwargs|]) == Some(v.vals[|kwargs|])
  {
    var all := kwargs + [kwarg];
    if AllSettled(v, c, all) {
      forall i | 0 <= i < |kwargs|
        ensures Settled(kwargs[i], c.fields[i]) == Some(v.vals[i])
      {
        assert all[i] == kwargs[i];
      }
      assert all[|kwargs|] == kwarg;
    }
  }

  lemma {:induction false} FieldRoundTrip(v: Val, c: Class, i: nat, d: Doc)
    requires WellFormed(c) && Fits(v, ClassTy(c)) && i < |c.fields|
    requires Agree(d, EncodeDoc(v), Keys(c))
    ensures var kwarg := Kwarg(c.fields[i], d);
            (kwarg.Ok? && Settled(kwarg.value, c.fields[i]) == Some(v.vals[i]))
            <==> FieldReturns(c.fields[i], v.vals[i])
    decreases v, 0
  {
    var f, value := c.fields[i], v.vals[i];
    assert FieldFits(f, value) && WellFormedTy(f.ty);
    DocKeys(v, c);
    KeysContain(c, |c.fields|, i);
    PayloadAtField(v, c, |c.fields|, i);
    assert Agree(d, Contribution(f, value), FieldKeys(f));
    if MetaOf(f).skip {
    } else if MetaOf(f).inline {
      if value.Null? {
        AlwaysAnInstance(f.ty.cls, d);
      } else {
        InstanceRoundTrip(value, f.ty.cls, d);
      }
    } else if !value.Null? {
      assert MetaOf(f).key in d && d[MetaOf(f).key] == Encode(value);
      ValueRoundTrip(value, f.ty);
    } else {
      assert MetaOf(f).key !in d;
    }
  }

  /** Decoding a class fails or makes an instance of it; it never gives None. */
  lemma AlwaysAnInstance(c: Class, d: Doc)
    ensures DecodeClass(c, d).Ok? ==> DecodeClass(c, d).value.Obj? && DecodeClass(c, d).value.cls == c
  {
  }

  /**
    The law of the codec: decoding the document of an entity gives the entity back,
    exactly when what the store does not keep of it returns.
  */
  lemma DocumentRoundTrip(v: Val, c: Class)
    requires WellFormed(c) && Fits(v, ClassTy(c))
    ensures DecodeDocument(c, EncodeDoc(v)) == Ok(v) <==> Returns(v, ClassTy(c))
  {
    InstanceRoundTrip(v, c, EncodeDoc(v));
  }

  // ---------- Where a field is stored ----------

  /**
    A field that is neither inlined nor left out is stored under its key, encoded, unless
    it is None: an `id` field without a name of its own under "_id".
  */
  lemma StoredUnderKey(v: Val, c: Class, i: nat)
    requires WellFormed(c) && Fits(v, ClassTy(c)) && i < |c.fields|
    requires Parts(c.fields[i])[0] != "-" && !SaysInline(c.fields[i])
    ensures var key := StoredKey(c.fields[i]);
            if v.vals[i].Null? then key !in EncodeDoc(v)
            else key in EncodeDoc(v) && EncodeDoc(v)[key] == Encode(v.vals[i])
  {
    var f := c.fields[i];
    MetaReads(f);
    DocKeys(v, c);
    PayloadAtField(v, c, |c.fields|, i);
    assert StoredKey(f) in FieldKeys(f);
    assert FieldFits(f, v.vals[i]);
  }

  lemma {:induction false} KwargsAt(c: Class, n: nat, d: Doc, i: nat)
    requires i < n <= |c.fields| && Kwargs(c, n, d).Ok?
    ensures Kwarg(c.fields[i], d) == Ok(Kwargs(c, n, d).value[i])
    decreases n
  {
    if i < n - 1 {
      KwargsAt(c, n - 1, d, i);
    }
  }

  /**
    Decoding reads such a field from its key in any document, and gives it its default if
    the key is missing; a field that is left out always gets its default.
  */
  lemma ReadFromKey(c: Class, d: Doc, i: nat)
    requires i < |c.fields| && DecodeClass(c, d).Ok?
    requires Parts(c.fields[i])[0] != "-" ==> !SaysInline(c.fields[i])
    ensures var f, v := c.fields[i], DecodeClass(c, d).value;
            && v.Obj? && v.cls == c && |v.vals| == |c.fields|
            && if Parts(f)[0] != "-" && StoredKey(f) in d then Ok(v.vals[i]) == Decode(f.ty, d[StoredKey(f)])
               else Some(v.vals[i]) == f.default
  {
    MetaReads(c.fields[i]);
    KwargsAt(c, |c.fields|, d, i);
  }

  /** What the store gets of a field that is left out: nothing, whatever its value. */
  lemma {:induction false} LeftOutIsNotStored(v: Val, i: nat, value: Val, n: nat)
    requires v.Obj? && i < Arity(v) && n <= Arity(v) && Parts(v.cls.fields[i])[0] == "-"
    ensures EncodeFields(v, n) == EncodeFields(Obj(v.cls, v.vals[i := value]), n)
    decreases n
  {
    hide Parts, Encode, EncodeDoc;
    MetaReads(v.cls.fields[i]);
    if n > 0 {
      LeftOutIsNotStored(v, i, value, n - 1);
    }
  }

  /** An inlined instance puts its own fields into the document of the enclosing one. */
  lemma InlinedIsStoredFlat(v: Val, c: Class, i: nat)
    requires WellFormed(c) && Fits(v, ClassTy(c)) && i < |c.fields|
    requires Parts(c.fields[i])[0] != "-" && SaysInline(c.fields[i]) && v.vals[i].Obj?
    ensures forall k :: k in EncodeDoc(v.vals[i]) ==> k in EncodeDoc(v) && EncodeDoc(v)[k] == EncodeDoc(v.vals[i])[k]
  {
    var f, value := c.fields[i], v.vals[i];
    MetaReads(f);
    DocKeys(v, c);
    assert FieldFits(f, value) && WellFormedTy(f.ty) && f.ty.ClassTy?;
    DocKeys(value, f.ty.cls);
    PayloadAtField(v, c, |c.fields|, i);
    assert Contribution(f, value) == EncodeDoc(value) && FieldKeys(f) == Keys(f.ty.cls);
  }

  /** What the store holds is made of scalars, lists and documents only; a SnowflakeID is stored as its number. */
  lemma {:induction false} EncodedIsPlain(v: Val)
    ensures Plain(Encode(v))
    ensures v.Snow? ==> Encode(v) == Int(v.id64)
    decreases v, 1
  {
    match v
    case Dict(entries) =>
      forall k | k in entries
        ensures Plain(Encode(entries[k]))
      {
        EncodedIsPlain(entries[k]);
      }
    case Arr(items) => AllEncodedArePlain(items);
    case Tup(elems) => AllEncodedArePlain(elems);
    case Obj(_, _) => DocIsPlain(v);
    case _ =>
  }

  lemma {:induction false} AllEncodedArePlain(items: seq<Val>)
    ensures Plain(Arr(EncodeAll(items)))
    decreases items, 2
  {
    forall i | 0 <= i < |items|
      ensures Plain(EncodeAll(items)[i])
    {
      EncodedIsPlain(items[i]);
    }
  }

  lemma {:induction false} DocIsPlain(v: Val)
    requires v.Obj?
    ensures Plain(Dict(EncodeDoc(v)))
    decreases v, 0, Arity(v) + 1
  {
    FieldsArePlain(v, Arity(v));
  }

  lemma {:induction false} FieldsArePlain(v: Val, n: nat)
    requires v.Obj? && n <= Arity(v)
    ensures Plain(Dict(EncodeFields(v, n)))
    decreases v, 0, n
  {
    hide Encode, EncodeDoc, MetaOf;
    if n > 0 {
      FieldsArePlain(v, n - 1);
      var value := v.vals[n - 1];
      if value.Obj? {
        DocIsPlain(value);
      } else {
        EncodedIsPlain(value);
      }
    }
  }

  /**
    No document has a key spelled "id", so a field mapped to it is decoded to its default,
    whatever its value was.
  */
  lemma LiteralIdKeyIsLost(v: Val, f: Field)
    requires v.Obj?
    requires !MetaOf(f).skip && !MetaOf(f).inline && MetaOf(f).key == "id"
    ensures Kwarg(f, EncodeDoc(v)) == Ok(None)
    ensures Settled(Kwarg(f, EncodeDoc(v)).value, f) == f.default
  {
    assert "id" !in EncodeDoc(v);
  }

  /** A None in a list of SnowflakeIDs is stored, and then the document cannot be decoded. */
  lemma NoneSnowflakeItemFails() returns (c: Class, v: Val)
    ensures WellFormed(c) && Fits(v, ClassTy(c))
    ensures DecodeDocument(c, EncodeDoc(v)) == Err(BadSnowflake)
  {
    var f := Field("ids", None, ListTy(SnowTy), None);
    c := Class([f]);
    v := Obj(c, [Arr([Null])]);
    assert Fits(v.vals[0], f.ty) && FieldFits(f, v.vals[0]) && WellFormedTy(f.ty);
    assert MetaOf(f) == Meta("ids", false, false);
    assert EncodeAll([Null]) == [Null];
    assert EncodeFields(v, 0) == map[];
    assert EncodeFields(v, 1) == map["ids" := Arr([Null])];
    assert EncodeDoc(v) == EncodeFields(v, 1);
    assert Kwargs(c, 1, EncodeDoc(v)) == Err(BadSnowflake);
  }

  /**
    An inlined field that is None, and defaults to None, leaves nothing in the document;
    decoding makes an instance of its class all the same, from the defaults in there.
  */
  lemma InlinedNoneComesBackAsInstance(inner: Class) returns (c: Class, v: Val)
    requires WellFormed(inner)
    ensures WellFormed(c) && Fits(v, ClassTy(c))
    ensures c == Class([Field("audit", Some("inline"), ClassTy(inner), Some(Null))])
    ensures v.vals == [Null] && EncodeDoc(v) == map[]
    ensures DecodeDocument(c, EncodeDoc(v)) != Ok(v)
    ensures DecodeClass(inner, map[]).Ok? ==>
              DecodeDocument(c, EncodeDoc(v)) == Ok(Obj(c, [DecodeClass(inner, map[]).value]))
  {
    var f := Field("audit", Some("inline"), ClassTy(inner), Some(Null));
    c := Class([f]);
    v := Obj(c, [Null]);
    InlineMeta(f);
    assert FieldFits(f, v.vals[0]) && WellFormedTy(f.ty);
    assert EncodeFields(v, 0) == map[] && EncodeFields(v, 1) == map[];
    assert EncodeDoc(v) == EncodeFields(v, 1);
    DocumentRoundTrip(v, c);
    assert !FieldReturns(c.fields[0], v.vals[0]);
    var inside := DecodeClass(inner, map[]);
    if inside.Ok? {
      DecodeOneField(f, map[], inside.value);
    }
  }

  lemma DecodeOneField(f: Field, d: Doc, value: Val)
    requires Kwarg(f, d) == Ok(Some(value))
    ensures DecodeClass(Class([f]), d) == Ok(Obj(Class([f]), [value]))
  {
    var c := Class([f]);
    assert Kwargs(c, 0, d) == Ok([]);
    assert [] + [Some(value)] == [Some(value)];
    assert Kwargs(c, 1, d) == Ok([Some(value)]);
    assert Construct(c, [Some(value)]).value.vals == [value];
  }

  lemma InlineMeta(f: Field)
    requires f.meta == Some("inline")
    ensures MetaOf(f).inline && !MetaOf(f).skip
  {
    NoComma("inline");
    assert Strip("inline") == "inline";
  }

  lemma {:induction false} NoComma(s: string)
    requires ',' !in s
    ensures SplitComma(s) == [s]
  {
    if s != "" {
      NoComma(s[1..]);
      assert [s[0]] + s[1..] == s;
    }
  }

  // ---------- The loops of the code ----------

  method ToDocument(v: Val) returns (payload: Doc)
    requires v.Obj?
    ensures payload == EncodeDoc(v)
    decreases v
  {
    payload := map[];
    for i := 0 to Arity(v)
      invariant payload == EncodeFields(v, i)
    {
      var value := v.vals[i];
      if value.Null? {
        continue;
      }
      var meta := MetaOf(v.cls.fields[i]);
      if meta.skip {
        continue;
      }
      if value.Obj? {
        var nested := ToDocument(value);
        if meta.inline {
          payload := payload + nested;
        } else {
          payload := payload[meta.key := Dict(nested)];
        }
      } else {
        payload := payload[meta.key := Encode(value)];
      }
    }
    if "id" in payload {
      var id := payload["id"];
      payload := (payload - {"id"})[ID_KEY := id];
    }
  }

  method DecodeDataclass(c: Class, doc: Doc) returns (r: Result<Val, DecodeError>)
    ensures r == DecodeClass(c, doc)
    decreases c
  {
    var kwargs: seq<Option<Val>> := [];
    for i := 0 to |c.fields|
      invariant Kwargs(c, i, doc) == Ok(kwargs)
    {
      var f := c.fields[i];
      var meta := MetaOf(f);
      var kwarg: Option<Val> := None;
      if meta.inline && !meta.skip {
        if f.ty.ClassTy? {
          var inner := DecodeDataclass(f.ty.cls, doc);
          if inner.Err? {
            KwargsFail(c, i + 1, |c.fields|, doc, inner.error);
            return Err(inner.error);
          }
          kwarg := Some(inner.value);
        }
      } else if !meta.skip && meta.key in doc {
        var value := Decode(f.ty, doc[meta.key]);
        if value.Err? {
          KwargsFail(c, i + 1, |c.fields|, doc, value.error);
          return Err(value.error);
        }
        kwarg := Some(value.value);
      }
      kwargs := kwargs + [kwarg];
    }
    r := Construct(c, kwargs);
  }

  /** The first error stops the loop. */
  lemma {:induction false} KwargsFail(c: Class, i: nat, n: nat, doc: Doc, e: DecodeError)
    requires i <= n <= |c.fields| && Kwargs(c, i, doc) == Err(e)
    ensures Kwargs(c, n, doc) == Err(e)
    decreases n
  {
    if i < n {
      KwargsFail(c, i, n - 1, doc, e);
    }
  }
}
