/** Inclusion of JSON Schema documents: which documents accept something, and a recursive check that
    decides whether every value valid for one document is valid for another. */
module JsonInclusion {
  import opened Domain
  import opened JsonSchema

  // ---- which documents accept something ----

  /** Some object passes the object keywords. */
  predicate ObjectSatisfiable(d: Doc)
    requires d.ObjectDoc?
    decreases d, 1
  {
    forall name :: name in d.required ==> NameSatisfiable(d, name)
  }

  predicate NameSatisfiable(d: Doc, name: string)
    requires d.ObjectDoc?
    decreases d, 0
  {
    if name in d.properties then Satisfiable(d.properties[name])
    else match d.additional
      case Absent => true
      case Flag(open) => open
      case Sub(doc) => Satisfiable(doc)
  }

  predicate Satisfiable(d: Doc)
    decreases d, 2
  {
    match d
    case BoolDoc(accept) => accept
    case ObjectDoc(types, _, _, _) =>
      || types.None?
      || (exists t :: t in types.value && t != ObjectType)
      || (ObjectType in types.value && ObjectSatisfiable(d))
  }

  /** A value of one type other than object; the number is not an integer unless it has to be. */
  function Sample(t: TypeName): (v: Value)
    requires t != ObjectType
    ensures HasType(v, t) && !v.Object?
    ensures forall u :: HasType(v, u) ==> u == t || (t == IntegerType && u == NumberType)
  {
    match t
    case NullType => Null
    case BooleanType => Boolean(true)
    case IntegerType => Number(0.0)
    case NumberType => assert (0.5).Floor == 0; Number(0.5)
    case StringType => Text("")
    case ArrayType => List([])
  }

  lemma {:induction false} Witness(d: Doc) returns (v: Value)
    requires Satisfiable(d)
    ensures Valid(d, v)
    decreases d, 3
  {
    match d {
      case BoolDoc(_) => v := Null;
      case ObjectDoc(types, required, properties, additional) =>
        if types.None? {
          v := Null;
        } else if t :| t in types.value && t != ObjectType {
          v := Sample(t);
        } else {
          v := ObjectWitness(d);
        }
    }
  }

  lemma {:induction false} FieldWitness(d: Doc, name: string) returns (v: Value)
    requires d.ObjectDoc? && NameSatisfiable(d, name)
    ensures FieldValid(d, name, v)
    decreases d, 0
  {
    if name in d.properties {
      v := Witness(d.properties[name]);
    } else if d.additional.Sub? {
      v := Witness(d.additional.doc);
    } else {
      v := Null;
    }
  }

  /** Fields for the required names, each acceptable. */
  lemma {:induction false} FieldsWitness(d: Doc, names: set<string>) returns (fields: map<string, Value>)
    requires d.ObjectDoc? && forall name :: name in names ==> NameSatisfiable(d, name)
    ensures fields.Keys == names && forall name :: name in fields ==> FieldValid(d, name, fields[name])
    decreases d, 1, |names|
  {
    fields := map[];
    if names != {} {
      var name :| name in names;
      var rest := FieldsWitness(d, names - {name});
      var v := FieldWitness(d, name);
      fields := rest[name := v];
    }
  }

  lemma {:induction false} ObjectWitness(d: Doc) returns (v: Value)
    requires d.ObjectDoc? && ObjectSatisfiable(d) && (d.types.Some? ==> ObjectType in d.types.value)
    ensures v.Object? && Valid(d, v)
    decreases d, 2
  {
    var fields := FieldsWitness(d, d.required);
    v := Object(fields);
    assert HasType(v, ObjectType);
  }

  /** Only satisfiable documents have valid values. */
  lemma {:induction false} ValidImpliesSatisfiable(d: Doc, v: Value)
    requires Valid(d, v)
    ensures Satisfiable(d)
    ensures d.ObjectDoc? && v.Object? ==> ObjectSatisfiable(d)
    decreases d
  {
    if d.ObjectDoc? && v.Object? {
      forall name | name in d.required ensures NameSatisfiable(d, name) {
        assert FieldValid(d, name, v.fields[name]);
        if name in d.properties {
          ValidImpliesSatisfiable(d.properties[name], v.fields[name]);
        } else if d.additional.Sub? {
          ValidImpliesSatisfiable(d.additional.doc, v.fields[name]);
        }
      }
    }
  }

  // ---- fields ----

  /** What a document says about fields it does not name. */
  function Rest(d: Doc): Doc
    requires d.ObjectDoc?
  {
    match d.additional
    case Absent => BoolDoc(true)
    case Flag(open) => BoolDoc(open)
    case Sub(doc) => doc
  }

  /** What a document says about one field. */
  function Spec(d: Doc, name: string): Doc
    requires d.ObjectDoc?
  {
    if name in d.properties then d.properties[name] else Rest(d)
  }

  predicate AllowsObject(d: Doc)
    requires d.ObjectDoc?
  {
    (d.types.Some? ==> ObjectType in d.types.value) && ObjectSatisfiable(d)
  }

  /** A counterexample for one field extends to the whole object. */
  lemma FieldExcludes(reader: Doc, writer: Doc, name: string, inner: Value) returns (v: Value)
    requires reader.ObjectDoc? && writer.ObjectDoc? && AllowsObject(writer)
    requires FieldValid(writer, name, inner) && !FieldValid(reader, name, inner)
    ensures Valid(writer, v) && !Valid(reader, v)
  {
    var fields := FieldsWitness(writer, writer.required);
    v := Object(fields[name := inner]);
    assert HasType(v, ObjectType);
    assert !FieldValid(reader, name, v.fields[name]);
  }

  /** A name longer than all of these. */
  lemma {:induction false} NewName(names: set<string>) returns (name: string)
    ensures forall n :: n in names ==> |n| < |name|
    decreases |names|
  {
    name := "x";
    if names != {} {
      var n :| n in names;
      var other := NewName(names - {n});
      name := if |n| < |other| then other else n + "x";
      assert forall m :: m in names ==> m == n || m in names - {n};
    }
  }

  // ---- the decision ----

  /** The types let a value of this kind through; an integer is let through as a number too. */
  predicate Lets(types: Option<set<TypeName>>, t: TypeName) {
    types.Some? ==> t in types.value || (t.IntegerType? && NumberType in types.value)
  }

  /** The narrowest type of a value. */
  function KindOf(v: Value): (t: TypeName)
    ensures HasType(v, t)
  {
    match v
    case Null => NullType
    case Boolean(_) => BooleanType
    case Number(n) => if n.Floor as real == n then IntegerType else NumberType
    case Text(_) => StringType
    case List(_) => ArrayType
    case Object(_) => ObjectType
  }

  lemma TypeAllowsKind(types: Option<set<TypeName>>, v: Value)
    ensures TypeAllows(types, v) <==> Lets(types, KindOf(v))
  {
  }

  /** A document that accepts everything, as an object schema. */
  function AsObject(d: Doc): Doc { if d.BoolDoc? then ObjectDoc(None, {}, map[], Absent) else d }

  /** Every value valid for the writer is valid for the reader, decided by recursion on the reader. */
  predicate Covers(reader: Doc, writer: Doc)
    decreases reader, 2
  {
    Satisfiable(writer) ==>
      match reader
      case BoolDoc(accept) => accept
      case ObjectDoc(_, _, _, _) => ObjectCovers(reader, AsObject(writer))
  }

  predicate ObjectCovers(reader: Doc, writer: Doc)
    requires reader.ObjectDoc? && writer.ObjectDoc?
    decreases reader, 1
  {
    && (forall t: TypeName :: t != ObjectType && Lets(writer.types, t) ==> Lets(reader.types, t))
    && (AllowsObject(writer) ==>
          && Lets(reader.types, ObjectType) && reader.required <= writer.required
          && (forall name :: name in reader.properties ==> Covers(reader.properties[name], Spec(writer, name)))
          && (forall name :: name in writer.properties && name !in reader.properties ==>
                RestCovers(reader, writer.properties[name]))
          && RestCovers(reader, Rest(writer)))
  }

  /** What the reader says about fields it does not name covers the document. */
  predicate RestCovers(reader: Doc, writer: Doc)
    requires reader.ObjectDoc?
    decreases reader, 0
  {
    match reader.additional
    case Absent => true
    case Flag(open) => open || !Satisfiable(writer)
    case Sub(doc) => Covers(doc, writer)
  }

  lemma {:induction false} CoversIncludes(reader: Doc, writer: Doc, v: Value)
    requires Covers(reader, writer) && Valid(writer, v)
    ensures Valid(reader, v)
    decreases reader, 1
  {
    ValidImpliesSatisfiable(writer, v);
    if reader.ObjectDoc? {
      var w := AsObject(writer);
      assert Valid(w, v);
      ValidImpliesSatisfiable(w, v);
      TypeAllowsKind(reader.types, v);
      TypeAllowsKind(w.types, v);
      if v.Object? {
        forall name | name in v.fields ensures FieldValid(reader, name, v.fields[name]) {
          assert FieldValid(w, name, v.fields[name]);
          if name in reader.properties {
            CoversIncludes(reader.properties[name], Spec(w, name), v.fields[name]);
          } else {
            RestIncludes(reader, Spec(w, name), v.fields[name]);
          }
        }
      }
    }
  }

  lemma {:induction false} RestIncludes(reader: Doc, writer: Doc, v: Value)
    requires reader.ObjectDoc? && RestCovers(reader, writer) && Valid(writer, v)
    ensures Valid(Rest(reader), v)
    decreases reader, 0
  {
    ValidImpliesSatisfiable(writer, v);
    if reader.additional.Sub? { CoversIncludes(reader.additional.doc, writer, v); }
  }

  /** Where the check fails there is a value that only the writer accepts. */
  lemma {:induction false} UncoveredExcludes(reader: Doc, writer: Doc) returns (v: Value)
    requires !Covers(reader, writer)
    ensures Valid(writer, v) && !Valid(reader, v)
    decreases reader, 2
  {
    if reader.BoolDoc? {
      v := Witness(writer);
    } else {
      v := ObjectUncovered(reader, AsObject(writer));
    }
  }

  lemma {:induction false} ObjectUncovered(reader: Doc, writer: Doc) returns (v: Value)
    requires reader.ObjectDoc? && writer.ObjectDoc? && !ObjectCovers(reader, writer)
    ensures Valid(writer, v) && !Valid(reader, v)
    decreases reader, 1
  {
    if t: TypeName :| t != ObjectType && Lets(writer.types, t) && !Lets(reader.types, t) {
      v := Sample(t);
      assert KindOf(v) == t;
      TypeAllowsKind(reader.types, v);
      TypeAllowsKind(writer.types, v);
    } else if !Lets(reader.types, ObjectType) || !(reader.required <= writer.required) {
      var fields := FieldsWitness(writer, writer.required);
      v := Object(fields);
      TypeAllowsKind(reader.types, v);
      TypeAllowsKind(writer.types, v);
    } else if name :| name in reader.properties && !Covers(reader.properties[name], Spec(writer, name)) {
      var inner := UncoveredExcludes(reader.properties[name], Spec(writer, name));
      v := FieldExcludes(reader, writer, name, inner);
    } else if name :|
      name in writer.properties && name !in reader.properties && !RestCovers(reader, writer.properties[name])
    {
      var inner := RestUncovered(reader, writer.properties[name]);
      v := FieldExcludes(reader, writer, name, inner);
    } else {
      var inner := RestUncovered(reader, Rest(writer));
      var name := NewName(reader.properties.Keys + writer.properties.Keys);
      v := FieldExcludes(reader, writer, name, inner);
    }
  }

  lemma {:induction false} RestUncovered(reader: Doc, writer: Doc) returns (v: Value)
    requires reader.ObjectDoc? && !RestCovers(reader, writer)
    ensures Valid(writer, v) && !Valid(Rest(reader), v)
    decreases reader, 0
  {
    if reader.additional.Sub? {
      v := UncoveredExcludes(reader.additional.doc, writer);
    } else {
      v := Witness(writer);
    }
  }

  /** The check decides inclusion, for all documents. */
  lemma CoversIffIncludes(reader: Doc, writer: Doc)
    ensures Covers(reader, writer) <==> Includes(reader, writer)
  {
    if Covers(reader, writer) {
      forall v | Valid(writer, v) ensures Valid(reader, v) { CoversIncludes(reader, writer, v); }
    } else {
      var v := UncoveredExcludes(reader, writer);
    }
  }
}
