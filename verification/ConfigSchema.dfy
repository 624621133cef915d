/**
 The JSON Schema generated from the configuration's Go types
 (internal/config/schema.go), against what those types write and accept.
 */
module ConfigSchema {
  import opened Wrappers
  import opened Strings

  // ----- Go types -----

  datatype GoType =
    | TString | TBool | TInt | TFloat
    | TSlice(elem: GoType) | TMap(elem: GoType) | TPointer(elem: GoType)
    | TStruct(fields: seq<Field>)
    | TInterface

  datatype Field = Field(name: string, exported: bool, tag: string, typ: GoType)

  function WireName(f: Field): string {
    if f.tag == "" || Split(f.tag)[0] == "" then ToLower(f.name) else Split(f.tag)[0]
  }

  predicate OmitEmpty(f: Field) {
    f.tag != "" && "omitempty" in Split(f.tag)[1..]
  }

  /** Fields that appear on the wire. */
  predicate Active(f: Field) {
    f.exported && WireName(f) != "" && WireName(f) != "-"
  }

  /** A tag is a name and options, with commas between; an empty name stands for the field's in lower case. */
  lemma TagExactly(f: Field, name: string, opts: seq<string>)
    requires f.tag == Join([name] + opts) && ',' !in name && forall o :: o in opts ==> ',' !in o
    ensures WireName(f) == if name == "" then ToLower(f.name) else name
    ensures OmitEmpty(f) <==> "omitempty" in opts
    ensures Active(f) <==> f.exported && WireName(f) !in {"", "-"}
  {
    hide Join, Split;
    SplitExactly(f.tag, [name] + opts);
    assert ([name] + opts)[0] == name && ([name] + opts)[1..] == opts;
    if f.tag == "" {
      SplitNothing();
      assert |[name] + opts| == 1;
    }
  }

  method YamlFieldName(f: Field) returns (name: string, opts: set<string>)
    ensures name == WireName(f) && ("omitempty" in opts <==> OmitEmpty(f))
  {
    opts := {};
    if f.tag == "" {
      return ToLower(f.name), opts;
    }
    var parts := Split(f.tag);
    for i := 1 to |parts|
      invariant forall o :: o in opts <==> o in parts[1..i]
    {
      assert parts[1..i + 1] == parts[1..i] + [parts[i]];
      opts := opts + {parts[i]};
    }
    assert parts[1..|parts|] == parts[1..];
    name := parts[0];
    if name == "" {
      name := ToLower(f.name);
    }
  }

  // ----- Schemas and documents -----

  /** An empty kind is no constraint. */
  datatype Schema = Schema(
    kind: string, properties: map<string, Schema>, required: seq<string>, items: Option<Schema>, additional: Additional)

  datatype Additional = Unrestricted | Forbidden | Each(schema: Schema)

  const Anything := Schema("", map[], [], None, Unrestricted)

  datatype Doc =
    | DNull | DString(s: string) | DBool(b: bool) | DInt(n: int) | DNumber(r: real)
    | DArray(elems: seq<Doc>) | DObject(members: seq<Member>)

  datatype Member = Member(key: string, value: Doc)

  predicate HasKey(members: seq<Member>, key: string) {
    exists i :: 0 <= i < |members| && members[i].key == key
  }

  predicate OfKind(kind: string, d: Doc) {
    if kind == "" then true
    else if kind == "string" then d.DString?
    else if kind == "boolean" then d.DBool?
    else if kind == "integer" then d.DInt? || (d.DNumber? && d.r.Floor as real == d.r)
    else if kind == "number" then d.DInt? || d.DNumber?
    else if kind == "array" then d.DArray?
    else kind == "object" && d.DObject?
  }

  /**
   Validation: required lists keys that must occur (section 6.5.3 of JSON Schema
   Validation 2020-12), and additionalProperties applies to the keys that
   properties does not name (section 10.3.2.3 of JSON Schema Core 2020-12).
   */
  predicate Validates(s: Schema, d: Doc)
    decreases d, 1
  {
    && OfKind(s.kind, d)
    && (d.DArray? && s.items.Some? ==> forall i :: 0 <= i < |d.elems| ==> Validates(s.items.value, d.elems[i]))
    && (d.DObject? ==> forall k :: 0 <= k < |s.required| ==> HasKey(d.members, s.required[k]))
    && (d.DObject? ==> forall i :: 0 <= i < |d.members| ==> MemberValidates(s, d.members[i]))
  }

  predicate MemberValidates(s: Schema, m: Member)
    decreases m, 0
  {
    if m.key in s.properties then Validates(s.properties[m.key], m.value)
    else match s.additional
      case Unrestricted => true
      case Forbidden => false
      case Each(each) => Validates(each, m.value)
  }

  // ----- Generation -----

  function SchemaFor(t: GoType): Schema
    decreases t, 0
  {
    match t
    case TString => Schema("string", map[], [], None, Unrestricted)
    case TBool => Schema("boolean", map[], [], None, Unrestricted)
    case TInt => Schema("integer", map[], [], None, Unrestricted)
    case TFloat => Schema("number", map[], [], None, Unrestricted)
    case TSlice(elem) => Schema("array", map[], [], Some(SchemaFor(elem)), Unrestricted)
    case TMap(elem) => Schema("object", map[], [], None, Each(SchemaFor(elem)))
    case TPointer(elem) => SchemaFor(elem)
    case TStruct(fields) => Schema("object", Properties(t, |fields|), Required(fields), None, Forbidden)
    case TInterface => Anything
  }

  /** The properties from the first `n` fields; a repeated name keeps the last. */
  function Properties(t: GoType, n: nat): map<string, Schema>
    requires t.TStruct? && n <= |t.fields|
    decreases t, 0, n
  {
    if n == 0 then map[]
    else
      var f := t.fields[n - 1];
      if Active(f) then Properties(t, n - 1)[WireName(f) := SchemaFor(f.typ)] else Properties(t, n - 1)
  }

  function Required(fields: seq<Field>): seq<string> {
    if fields == [] then []
    else
      var f := fields[|fields| - 1];
      Required(fields[..|fields| - 1]) + (if Active(f) && !OmitEmpty(f) then [WireName(f)] else [])
  }

  /** Each kind of type has its JSON Schema type; a struct admits no key but those of its properties. */
  lemma SchemaKinds(t: GoType)
    ensures var s := SchemaFor(t);
      && (t.TString? ==> s.kind == "string")
      && (t.TBool? ==> s.kind == "boolean")
      && (t.TInt? ==> s.kind == "integer")
      && (t.TFloat? ==> s.kind == "number")
      && (t.TSlice? ==> s.kind == "array" && s.items == Some(SchemaFor(t.elem)))
      && (t.TMap? ==> s.kind == "object" && s.additional == Each(SchemaFor(t.elem)))
      && (t.TStruct? ==> s.kind == "object" && s.additional == Forbidden)
      && (t.TPointer? ==> s == SchemaFor(t.elem))
      && (t.TInterface? ==> s == Anything)
  {
    hide Properties, Required;
  }

  method SchemaForType(t: GoType) returns (node: Schema)
    ensures node == SchemaFor(t)
    decreases t, 1
  {
    var u := t;
    while u.TPointer?
      invariant SchemaFor(u) == SchemaFor(t) && (u == t || u < t)
      decreases u
    {
      u := u.elem;
    }
    match u
    case TString => return Schema("string", map[], [], None, Unrestricted);
    case TBool => return Schema("boolean", map[], [], None, Unrestricted);
    case TInt => return Schema("integer", map[], [], None, Unrestricted);
    case TFloat => return Schema("number", map[], [], None, Unrestricted);
    case TSlice(elem) =>
      var items := SchemaForType(elem);
      return Schema("array", map[], [], Some(items), Unrestricted);
    case TMap(elem) =>
      var each := SchemaForType(elem);
      return Schema("object", map[], [], None, Each(each));
    case TStruct(_) => node := SchemaForStruct(u);
    case TInterface => return Anything;
  }

  method SchemaForStruct(t: GoType) returns (node: Schema)
    requires t.TStruct?
    ensures node == SchemaFor(t)
    decreases t, 0
  {
    var properties: map<string, Schema> := map[];
    var required: seq<string> := [];
    for i := 0 to |t.fields|
      invariant properties == Properties(t, i) && required == Required(t.fields[..i])
    {
      var field := t.fields[i];
      assert t.fields[..i + 1][..i] == t.fields[..i];
      if !field.exported { continue; }
      var name, opts := YamlFieldName(field);
      if name == "" || name == "-" { continue; }
      var sub := SchemaForType(field.typ);
      properties := properties[name := sub];
      if "omitempty" !in opts {
        required := required + [name];
      }
    }
    assert t.fields[..|t.fields|] == t.fields;
    node := Schema("object", properties, required, None, Forbidden);
  }

  // ----- What a document of a type is, without schemas -----

  /** At every level the fields on the wire have different names. */
  ghost predicate DistinctNames(t: GoType) {
    match t
    case TSlice(elem) => DistinctNames(elem)
    case TMap(elem) => DistinctNames(elem)
    case TPointer(elem) => DistinctNames(elem)
    case TStruct(fields) =>
      && (forall i :: 0 <= i < |fields| ==> DistinctNames(fields[i].typ))
      && forall i, j :: 0 <= i < j < |fields| && Active(fields[i]) && Active(fields[j]) ==>
        WireName(fields[i]) != WireName(fields[j])
    case _ => true
  }

  predicate IsInteger(d: Doc) {
    d.DInt? || (d.DNumber? && d.r.Floor as real == d.r)
  }

  /**
   Scalars match; a struct's object has only its fields' keys, each with a fitting value, and no
   required one missing.
   */
  ghost predicate Conforms(t: GoType, d: Doc)
    decreases t, d
  {
    match t
    case TString => d.DString?
    case TBool => d.DBool?
    case TInt => IsInteger(d)
    case TFloat => d.DInt? || d.DNumber?
    case TSlice(elem) => d.DArray? && forall i :: 0 <= i < |d.elems| ==> Conforms(elem, d.elems[i])
    case TMap(elem) => d.DObject? && forall i :: 0 <= i < |d.members| ==> Conforms(elem, d.members[i].value)
    case TPointer(elem) => Conforms(elem, d)
    case TStruct(fields) =>
      && d.DObject?
      && (forall i :: 0 <= i < |d.members| ==> exists f :: 0 <= f < |fields| && Fits(fields[f], d.members[i]))
      && forall f :: 0 <= f < |fields| && Active(fields[f]) && !OmitEmpty(fields[f]) ==>
        HasKey(d.members, WireName(fields[f]))
    case TInterface => true
  }

  ghost predicate Fits(f: Field, m: Member)
    decreases f.typ, m
  {
    Active(f) && WireName(f) == m.key && Conforms(f.typ, m.value)
  }

  lemma {:induction false} PropertiesByField(t: GoType, n: nat, key: string)
    requires t.TStruct? && n <= |t.fields| && DistinctNames(t)
    ensures key in Properties(t, n) <==> exists f :: 0 <= f < n && Active(t.fields[f]) && WireName(t.fields[f]) == key
    ensures forall f :: 0 <= f < n && Active(t.fields[f]) && WireName(t.fields[f]) == key ==>
      Properties(t, n)[key] == SchemaFor(t.fields[f].typ)
  {
    if n > 0 {
      PropertiesByField(t, n - 1, key);
    }
  }

  lemma {:induction false} RequiredByField(fields: seq<Field>, key: string)
    ensures key in Required(fields) <==>
      exists f :: 0 <= f < |fields| && Active(fields[f]) && !OmitEmpty(fields[f]) && WireName(fields[f]) == key
  {
    if fields != [] {
      var before := fields[..|fields| - 1];
      RequiredByField(before, key);
      assert forall f :: 0 <= f < |before| ==> before[f] == fields[f];
    }
  }

  lemma RequiredIsExact(fields: seq<Field>, members: seq<Member>)
    ensures (forall k :: 0 <= k < |Required(fields)| ==> HasKey(members, Required(fields)[k])) <==>
      forall f :: 0 <= f < |fields| && Active(fields[f]) && !OmitEmpty(fields[f]) ==>
        HasKey(members, WireName(fields[f]))
  {
    hide HasKey, Active, OmitEmpty, WireName;
    forall f | 0 <= f < |fields| && Active(fields[f]) && !OmitEmpty(fields[f])
      ensures WireName(fields[f]) in Required(fields)
    {
      RequiredByField(fields, WireName(fields[f]));
    }
    forall k | 0 <= k < |Required(fields)|
      ensures exists f ::
        0 <= f < |fields| && Active(fields[f]) && !OmitEmpty(fields[f]) && WireName(fields[f]) == Required(fields)[k]
    {
      RequiredByField(fields, Required(fields)[k]);
    }
  }

  /** The generated schema accepts exactly the documents of the type. */
  lemma {:induction false} SchemaIsExact(t: GoType, d: Doc)
    requires DistinctNames(t)
    ensures Validates(SchemaFor(t), d) <==> Conforms(t, d)
    decreases t, d
  {
    match t
    case TSlice(elem) =>
      if d.DArray? {
        forall i | 0 <= i < |d.elems| ensures Validates(SchemaFor(elem), d.elems[i]) <==> Conforms(elem, d.elems[i]) {
          SchemaIsExact(elem, d.elems[i]);
        }
      }
    case TMap(elem) =>
      if d.DObject? {
        forall i | 0 <= i < |d.members|
          ensures MemberValidates(SchemaFor(t), d.members[i]) <==> Conforms(elem, d.members[i].value)
        {
          SchemaIsExact(elem, d.members[i].value);
        }
      }
    case TPointer(elem) => SchemaIsExact(elem, d);
    case TStruct(fields) =>
      if d.DObject? {
        forall i | 0 <= i < |d.members|
          ensures MemberValidates(SchemaFor(t), d.members[i]) <==>
            exists f :: 0 <= f < |fields| && Fits(fields[f], d.members[i])
        {
          MemberIsExact(t, d.members[i]);
        }
        RequiredIsExact(fields, d.members);
      }
    case _ =>
  }

  lemma {:induction false} MemberIsExact(t: GoType, m: Member)
    requires t.TStruct? && DistinctNames(t)
    ensures MemberValidates(SchemaFor(t), m) <==>
      exists f :: 0 <= f < |t.fields| && Fits(t.fields[f], m)
    decreases t, m, 0
  {
    PropertiesByField(t, |t.fields|, m.key);
    if f :| 0 <= f < |t.fields| && Active(t.fields[f]) && WireName(t.fields[f]) == m.key {
      SchemaIsExact(t.fields[f].typ, m.value);
    }
  }

  /** Some object written for a struct, at any depth, has a key that none of the struct's fields goes by. */
  ghost predicate UnknownKey(t: GoType, d: Doc)
    decreases t, d
  {
    match t
    case TSlice(elem) => d.DArray? && exists i :: 0 <= i < |d.elems| && UnknownKey(elem, d.elems[i])
    case TMap(elem) => d.DObject? && exists i :: 0 <= i < |d.members| && UnknownKey(elem, d.members[i].value)
    case TPointer(elem) => UnknownKey(elem, d)
    case TStruct(fields) =>
      d.DObject? && exists i :: 0 <= i < |d.members| && UnknownMember(t, d.members[i])
    case _ => false
  }

  /** The key is no field's, or the value that goes to a field of that name has an unknown key. */
  ghost predicate UnknownMember(t: GoType, m: Member)
    requires t.TStruct?
    decreases t, m, 0
  {
    forall f :: 0 <= f < |t.fields| && Active(t.fields[f]) && WireName(t.fields[f]) == m.key ==>
      UnknownKey(t.fields[f].typ, m.value)
  }

  lemma {:induction false} UnknownKeyDoesNotConform(t: GoType, d: Doc)
    requires UnknownKey(t, d)
    ensures !Conforms(t, d)
    decreases t, d
  {
    match t
    case TSlice(elem) =>
      var i :| 0 <= i < |d.elems| && UnknownKey(elem, d.elems[i]);
      UnknownKeyDoesNotConform(elem, d.elems[i]);
    case TMap(elem) =>
      var i :| 0 <= i < |d.members| && UnknownKey(elem, d.members[i].value);
      UnknownKeyDoesNotConform(elem, d.members[i].value);
    case TPointer(elem) => UnknownKeyDoesNotConform(elem, d);
    case TStruct(fields) =>
      var i :| 0 <= i < |d.members| && UnknownMember(t, d.members[i]);
      forall f | 0 <= f < |fields| && Active(fields[f]) && WireName(fields[f]) == d.members[i].key
        ensures !Conforms(fields[f].typ, d.members[i].value)
      {
        UnknownKeyDoesNotConform(fields[f].typ, d.members[i].value);
      }
  }

  lemma UnknownKeyIsRejected(t: GoType, d: Doc)
    requires DistinctNames(t) && UnknownKey(t, d)
    ensures !Validates(SchemaFor(t), d)
  {
    SchemaIsExact(t, d);
    UnknownKeyDoesNotConform(t, d);
  }

  // ----- What the YAML encoder writes -----

  /** Go values; nil slices and maps are empty ones, and pointers are not nil. */
  datatype Value =
    | VString(s: string) | VBool(b: bool) | VInt(n: int) | VFloat(r: real)
    | VSlice(elems: seq<Value>) | VMap(entries: seq<Entry>) | VPointer(target: Value)
    | VStruct(fields: seq<Value>)
    | VInterface(doc: Doc)

  datatype Entry = Entry(key: string, value: Value)

  predicate HasType(v: Value, t: GoType)
    decreases t, v
  {
    match t
    case TString => v.VString?
    case TBool => v.VBool?
    case TInt => v.VInt?
    case TFloat => v.VFloat?
    case TSlice(elem) => v.VSlice? && forall i :: 0 <= i < |v.elems| ==> HasType(v.elems[i], elem)
    case TMap(elem) => v.VMap? && forall i :: 0 <= i < |v.entries| ==> HasType(v.entries[i].value, elem)
    case TPointer(elem) => v.VPointer? && HasType(v.target, elem)
    case TStruct(fields) =>
      v.VStruct? && |v.fields| == |fields| && forall i :: 0 <= i < |fields| ==> HasType(v.fields[i], fields[i].typ)
    case TInterface => v.VInterface?
  }

  /** What `omitempty` leaves out. */
  predicate IsEmpty(v: Value, t: GoType)
    requires HasType(v, t)
    decreases t
  {
    match t
    case TString => v.s == ""
    case TBool => !v.b
    case TInt => v.n == 0
    case TFloat => v.r == 0.0
    case TSlice(_) => v.elems == []
    case TMap(_) => v.entries == []
    case TPointer(_) => false
    case TStruct(fields) => forall i :: 0 <= i < |fields| && fields[i].exported ==> IsEmpty(v.fields[i], fields[i].typ)
    case TInterface => v.doc == DNull
  }

  function Write(v: Value, t: GoType): Doc
    requires HasType(v, t)
    decreases t, v, 0
  {
    match t
    case TString => DString(v.s)
    case TBool => DBool(v.b)
    case TInt => DInt(v.n)
    case TFloat => DNumber(v.r)
    case TSlice(elem) => DArray(seq(|v.elems|, i requires 0 <= i < |v.elems| => Write(v.elems[i], elem)))
    case TMap(elem) =>
      DObject(seq(|v.entries|,
        i requires 0 <= i < |v.entries| => Member(v.entries[i].key, Write(v.entries[i].value, elem))))
    case TPointer(elem) => Write(v.target, elem)
    case TStruct(fields) => DObject(WriteFields(v, t, |fields|))
    case TInterface => v.doc
  }

  predicate Written(v: Value, f: Field)
    requires HasType(v, f.typ)
  {
    Active(f) && !(OmitEmpty(f) && IsEmpty(v, f.typ))
  }

  function WriteFields(v: Value, t: GoType, n: nat): seq<Member>
    requires t.TStruct? && HasType(v, t) && n <= |t.fields|
    decreases t, v, 0, n
  {
    if n == 0 then []
    else
      var f := t.fields[n - 1];
      WriteFields(v, t, n - 1) +
      if Written(v.fields[n - 1], f) then [Member(WireName(f), Write(v.fields[n - 1], f.typ))] else []
  }

  lemma {:induction false} WrittenConforms(v: Value, t: GoType)
    requires HasType(v, t)
    ensures Conforms(t, Write(v, t))
    decreases t, v, 0
  {
    match t
    case TSlice(elem) =>
      forall i | 0 <= i < |v.elems| ensures Conforms(elem, Write(v.elems[i], elem)) {
        WrittenConforms(v.elems[i], elem);
      }
    case TMap(elem) =>
      forall i | 0 <= i < |v.entries| ensures Conforms(elem, Write(v.entries[i].value, elem)) {
        WrittenConforms(v.entries[i].value, elem);
      }
    case TPointer(elem) => WrittenConforms(v.target, elem);
    case TStruct(fields) =>
      FieldsConform(v, t, |fields|);
      FieldsMakeConforming(t, WriteFields(v, t, |fields|));
      assert Write(v, t) == DObject(WriteFields(v, t, |fields|));
    case _ =>
  }

  /** `m` goes to one of the first `n` fields. */
  ghost predicate GoesToField(t: GoType, n: nat, m: Member)
    requires t.TStruct? && n <= |t.fields|
  {
    exists f :: 0 <= f < n && Fits(t.fields[f], m)
  }

  /** `members` is an object of the first `n` fields: each goes to one of them, and no required one is missing. */
  ghost predicate HoldsFields(t: GoType, n: nat, members: seq<Member>)
    requires t.TStruct? && n <= |t.fields|
  {
    && (forall i :: 0 <= i < |members| ==> GoesToField(t, n, members[i]))
    && forall f :: 0 <= f < n && Active(t.fields[f]) && !OmitEmpty(t.fields[f]) ==>
      HasKey(members, WireName(t.fields[f]))
  }

  lemma FieldsMakeConforming(t: GoType, members: seq<Member>)
    requires t.TStruct? && HoldsFields(t, |t.fields|, members)
    ensures Conforms(t, DObject(members))
  {
    hide Active, OmitEmpty, WireName, HasKey;
    var d := DObject(members);
    forall i | 0 <= i < |d.members| ensures exists f :: 0 <= f < |t.fields| && Fits(t.fields[f], d.members[i]) {
      assert GoesToField(t, |t.fields|, d.members[i]);
      var f :| 0 <= f < |t.fields| && Fits(t.fields[f], d.members[i]);
    }
    assert forall f :: 0 <= f < |t.fields| && Active(t.fields[f]) && !OmitEmpty(t.fields[f]) ==>
      HasKey(d.members, WireName(t.fields[f]));
  }

  lemma KeyStays(before: seq<Member>, more: seq<Member>, key: string)
    ensures HasKey(before, key) ==> HasKey(before + more, key)
  {
    if i :| 0 <= i < |before| && before[i].key == key {
      assert (before + more)[i].key == key;
    }
  }

  /** One more field, written with its key unless it may be left out. */
  lemma OneMoreField(t: GoType, n: nat, before: seq<Member>, more: seq<Member>)
    requires t.TStruct? && n < |t.fields| && HoldsFields(t, n, before)
    requires |more| <= 1 && (|more| == 1 ==> Fits(t.fields[n], more[0]))
    requires |more| == 0 ==> !Active(t.fields[n]) || OmitEmpty(t.fields[n])
    ensures HoldsFields(t, n + 1, before + more)
  {
    hide Conforms, Active, OmitEmpty, WireName, HasKey;
    var members := before + more;
    forall i | 0 <= i < |members| ensures GoesToField(t, n + 1, members[i]) {
      if i < |before| {
        assert GoesToField(t, n, before[i]);
      } else {
        assert members[i] == more[0];
      }
    }
    forall f | 0 <= f <= n && Active(t.fields[f]) && !OmitEmpty(t.fields[f])
      ensures HasKey(members, WireName(t.fields[f]))
    {
      if f < n {
        KeyStays(before, more, WireName(t.fields[f]));
      } else {
        LastKey(before, more[0]);
        assert more == [more[0]];
      }
    }
  }

  lemma LastKey(before: seq<Member>, m: Member)
    ensures HasKey(before + [m], m.key)
  {
    assert (before + [m])[|before|] == m;
  }

  lemma {:induction false} FieldsConform(v: Value, t: GoType, n: nat)
    requires t.TStruct? && HasType(v, t) && n <= |t.fields|
    ensures HoldsFields(t, n, WriteFields(v, t, n))
    decreases t, v, 0, n
  {
    hide Conforms, Active, OmitEmpty, WireName, IsEmpty, Write, HoldsFields;
    if n > 0 {
      var f, value := t.fields[n - 1], v.fields[n - 1];
      FieldsConform(v, t, n - 1);
      WrittenConforms(value, f.typ);
      var more := if Written(value, f) then [Member(WireName(f), Write(value, f.typ))] else [];
      OneMoreField(t, n - 1, WriteFields(v, t, n - 1), more);
    } else {
      NoFields(t);
    }
  }

  lemma NoFields(t: GoType)
    requires t.TStruct?
    ensures HoldsFields(t, 0, [])
  {
  }

  /** Whatever a type writes validates against the type's schema. */
  lemma SchemaAcceptsWhatIsWritten(t: GoType, v: Value)
    requires DistinctNames(t) && HasType(v, t)
    ensures Validates(SchemaFor(t), Write(v, t))
  {
    WrittenConforms(v, t);
    SchemaIsExact(t, Write(v, t));
  }
}
