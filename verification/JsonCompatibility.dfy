/** What the comparison of two JSON schemas guarantees: soundness against draft-07 validation, and
    when acceptance is a preorder. */
module JsonCompatibility {
  import opened Domain
  import opened JsonSchema
  import opened JsonInclusion

  // ---- soundness ----

  /** The reader's additional properties are a flag or absent, here and in every shared property. */
  ghost predicate PlainReader(reader: Doc, writer: Doc) {
    reader.ObjectDoc? && writer.ObjectDoc? ==>
      && !reader.additional.Sub?
      && forall name :: name in reader.properties && name in writer.properties ==>
           PlainReader(reader.properties[name], writer.properties[name])
  }

  /** The comparison never looks at the reader's schema for additional properties: it has to cover
      what the writer says about every field the reader does not name. */
  predicate AdditionalHolds(reader: Doc, writer: Doc)
    requires reader.ObjectDoc? && writer.ObjectDoc?
  {
    reader.additional.Sub? ==>
      && Covers(reader.additional.doc, Rest(writer))
      && forall name :: name in writer.properties && name !in reader.properties ==>
           Covers(reader.additional.doc, writer.properties[name])
  }

  /** The checks that the comparison skips. Where the writer states no type, the reader's types cover
      everything the writer lets through; and the reader's additional properties hold. */
  predicate SkippedChecksHold(reader: Doc, writer: Doc) {
    reader.ObjectDoc? && writer.ObjectDoc? ==>
      && (reader.types.Some? && writer.types.None? ==>
            && (forall t: TypeName :: t !in {ObjectType, IntegerType} ==> t in reader.types.value)
            && (ObjectSatisfiable(writer) ==> ObjectType in reader.types.value))
      && (AllowsObject(writer) ==>
            && AdditionalHolds(reader, writer)
            && forall name :: name in reader.properties && name in writer.properties ==>
                 SkippedChecksHold(reader.properties[name], writer.properties[name]))
  }

  lemma TypesCarryOver(reader: Doc, writer: Doc, v: Value)
    requires reader.ObjectDoc? && writer.ObjectDoc? && Accepts(reader, writer) && SkippedChecksHold(reader, writer)
    requires Valid(writer, v)
    ensures TypeAllows(reader.types, v)
  {
    ValidImpliesSatisfiable(writer, v);
    if reader.types.Some? && writer.types.None? {
      var t := match v case Null => NullType case Boolean(_) => BooleanType case Number(_) => NumberType
        case Text(_) => StringType case List(_) => ArrayType case Object(_) => ObjectType;
      assert HasType(v, t) && t in reader.types.value;
    }
  }

  lemma {:induction false} HeldChecksInclude(reader: Doc, writer: Doc, v: Value)
    requires Accepts(reader, writer) && SkippedChecksHold(reader, writer)
    requires Valid(writer, v)
    ensures Valid(reader, v)
    decreases reader
  {
    if reader.ObjectDoc? && writer.ObjectDoc? {
      TypesCarryOver(reader, writer, v);
      if v.Object? {
        ValidImpliesSatisfiable(writer, v);
        forall name | name in v.fields ensures FieldValid(reader, name, v.fields[name]) {
          assert FieldValid(writer, name, v.fields[name]);
          if name in reader.properties && name in writer.properties {
            HeldChecksInclude(reader.properties[name], writer.properties[name], v.fields[name]);
          } else if name !in reader.properties && reader.additional.Sub? {
            CoversIncludes(reader.additional.doc, Spec(writer, name), v.fields[name]);
          }
        }
      }
    }
  }

  lemma MissingTypeExcludes(reader: Doc, writer: Doc, t: TypeName) returns (v: Value)
    requires reader.ObjectDoc? && writer.ObjectDoc? && reader.types.Some? && writer.types.None?
    requires t !in reader.types.value && t != IntegerType && (t == ObjectType ==> ObjectSatisfiable(writer))
    ensures Valid(writer, v) && !Valid(reader, v)
  {
    if t == ObjectType {
      v := ObjectWitness(writer);
      assert forall u :: HasType(v, u) ==> u == ObjectType;
    } else {
      v := Sample(t);
    }
  }

  lemma AdditionalExcludes(reader: Doc, writer: Doc) returns (v: Value)
    requires reader.ObjectDoc? && writer.ObjectDoc? && AllowsObject(writer) && !AdditionalHolds(reader, writer)
    ensures Valid(writer, v) && !Valid(reader, v)
  {
    if !Covers(reader.additional.doc, Rest(writer)) {
      var inner := UncoveredExcludes(reader.additional.doc, Rest(writer));
      var name := NewName(reader.properties.Keys + writer.properties.Keys);
      v := FieldExcludes(reader, writer, name, inner);
    } else {
      var name :| name in writer.properties && name !in reader.properties
                  && !Covers(reader.additional.doc, writer.properties[name]);
      var inner := UncoveredExcludes(reader.additional.doc, writer.properties[name]);
      v := FieldExcludes(reader, writer, name, inner);
    }
  }

  lemma {:induction false} InclusionNeedsChecks(reader: Doc, writer: Doc) returns (v: Value)
    requires !SkippedChecksHold(reader, writer)
    ensures Valid(writer, v) && !Valid(reader, v)
    decreases reader
  {
    if t :| reader.types.Some? && writer.types.None? && t !in reader.types.value && t != IntegerType
            && (t == ObjectType ==> ObjectSatisfiable(writer))
    {
      v := MissingTypeExcludes(reader, writer, t);
    } else if !AdditionalHolds(reader, writer) {
      v := AdditionalExcludes(reader, writer);
    } else {
      var name :| name in reader.properties && name in writer.properties
                  && !SkippedChecksHold(reader.properties[name], writer.properties[name]);
      var inner := InclusionNeedsChecks(reader.properties[name], writer.properties[name]);
      v := FieldExcludes(reader, writer, name, inner);
    }
  }

  /** A comparison that reports nothing is right exactly when the checks it skipped hold: then every
      value valid for the writer is valid for the reader, and otherwise one is not. */
  lemma AcceptanceIsSoundIff(reader: Doc, writer: Doc)
    requires Accepts(reader, writer)
    ensures Includes(reader, writer) <==> SkippedChecksHold(reader, writer)
  {
    if SkippedChecksHold(reader, writer) {
      forall v | Valid(writer, v) ensures Valid(reader, v) { HeldChecksInclude(reader, writer, v); }
    } else {
      var v := InclusionNeedsChecks(reader, writer);
    }
  }

  /** Every object schema in the document states its type. */
  ghost predicate Typed(d: Doc) {
    d.ObjectDoc? ==> d.types.Some? && forall name :: name in d.properties ==> Typed(d.properties[name])
  }

  lemma {:induction false} TypedWriterSkipsNothing(reader: Doc, writer: Doc)
    requires Typed(writer) && PlainReader(reader, writer)
    ensures SkippedChecksHold(reader, writer)
    decreases reader
  {
    if reader.ObjectDoc? && writer.ObjectDoc? {
      forall name | name in reader.properties && name in writer.properties
        ensures SkippedChecksHold(reader.properties[name], writer.properties[name])
      {
        TypedWriterSkipsNothing(reader.properties[name], writer.properties[name]);
      }
    }
  }

  /** Over documents that state their types, with boolean additional properties in the reader,
      acceptance means inclusion. */
  lemma AcceptedMeansIncluded(reader: Doc, writer: Doc)
    requires Accepts(reader, writer) && Typed(writer) && PlainReader(reader, writer)
    ensures Includes(reader, writer)
  {
    TypedWriterSkipsNothing(reader, writer);
    AcceptanceIsSoundIff(reader, writer);
  }

  /** The two ways the comparison misses an incompatibility: a writer without a type, and a reader
      with a schema for additional properties. */
  lemma UnsoundAcceptances()
    ensures var reader, writer := ObjectDoc(Some({StringType}), {}, map[], Absent), ObjectDoc(None, {}, map[], Absent);
      Accepts(reader, writer) && Valid(writer, Null) && !Valid(reader, Null)
    ensures var reader, writer := ObjectDoc(Some({ObjectType}), {}, map[], Sub(BoolDoc(false))),
                                  ObjectDoc(Some({ObjectType}), {}, map[], Absent);
      Accepts(reader, writer) && Typed(writer) && !Includes(reader, writer)
  {
    var reader, writer := ObjectDoc(Some({ObjectType}), {}, map[], Sub(BoolDoc(false))),
                          ObjectDoc(Some({ObjectType}), {}, map[], Absent);
    var v := Object(map["a" := Null]);
    assert HasType(v, ObjectType) && Valid(writer, v);
    assert "a" in v.fields && !FieldValid(reader, "a", v.fields["a"]);
    assert !Valid(reader, v);
  }

  // ---- acceptance as an order ----

  lemma {:induction false} AcceptsReflexive(d: Doc)
    ensures Accepts(d, d)
  {
    if d.ObjectDoc? {
      forall name | name in d.properties ensures Accepts(d.properties[name], d.properties[name]) {
        AcceptsReflexive(d.properties[name]);
      }
    }
  }

  /** The type checks of a comparison, here and in every shared property. */
  ghost predicate TypesAccept(reader: Doc, writer: Doc) {
    reader.ObjectDoc? && writer.ObjectDoc? ==>
      && TypeSuperset(reader.types, writer.types)
      && forall name :: name in reader.properties && name in writer.properties ==>
           TypesAccept(reader.properties[name], writer.properties[name])
  }

  lemma SharedByAll(a: Doc, b: Doc, c: Doc, name: string)
    requires a.ObjectDoc? && b.ObjectDoc? && c.ObjectDoc? && ShapeAccepts(a, b) && ShapeAccepts(b, c)
    requires name in a.properties && name in c.properties
    ensures name in b.properties
  {
  }

  lemma ShapesCompose(a: Doc, b: Doc, c: Doc)
    requires a.ObjectDoc? && b.ObjectDoc? && c.ObjectDoc? && ShapeAccepts(a, b) && ShapeAccepts(b, c)
    ensures ShapeAccepts(a, c)
  {
  }

  /** Along a chain of accepted versions, the two ends are accepted exactly when their types are: no
      other check can fail. */
  lemma {:induction false} AcceptsComposesIff(a: Doc, b: Doc, c: Doc)
    requires Accepts(a, b) && Accepts(b, c)
    ensures Accepts(a, c) <==> TypesAccept(a, c)
    decreases a
  {
    if a.ObjectDoc? && b.ObjectDoc? && c.ObjectDoc? {
      ShapesCompose(a, b, c);
      forall name | name in a.properties && name in c.properties
        ensures Accepts(a.properties[name], c.properties[name]) <==> TypesAccept(a.properties[name], c.properties[name])
      {
        SharedByAll(a, b, c, name);
        AcceptsComposesIff(a.properties[name], b.properties[name], c.properties[name]);
      }
    } else if a.ObjectDoc? && c.ObjectDoc? {
      assert false;
    }
  }

  lemma {:induction false} TypedMiddle(a: Doc, b: Doc, c: Doc)
    requires Accepts(a, b) && Accepts(b, c) && Typed(b)
    ensures TypesAccept(a, c)
    decreases a
  {
    if a.ObjectDoc? && c.ObjectDoc? {
      forall name | name in a.properties && name in c.properties
        ensures TypesAccept(a.properties[name], c.properties[name])
      {
        SharedByAll(a, b, c, name);
        TypedMiddle(a.properties[name], b.properties[name], c.properties[name]);
      }
    }
  }

  lemma AcceptsTransitive(a: Doc, b: Doc, c: Doc)
    requires Accepts(a, b) && Accepts(b, c) && Typed(b)
    ensures Accepts(a, c)
  {
    TypedMiddle(a, b, c);
    AcceptsComposesIff(a, b, c);
  }

  /** A version without a type forgets the type of the one before it. */
  lemma UntypedMiddleBreaksChain()
    ensures var a, b, c := ObjectDoc(Some({StringType}), {}, map[], Absent), ObjectDoc(None, {}, map[], Absent),
                           ObjectDoc(Some({NullType}), {}, map[], Absent);
      Accepts(a, b) && Accepts(b, c) && !Accepts(a, c)
  {
    assert NullType in {NullType} && NullType !in {StringType};
  }
}
