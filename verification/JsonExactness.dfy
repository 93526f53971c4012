/** When the comparison reports a problem that is none: the exact list of its false alarms, and a
    fragment of documents on which it decides inclusion (internal/formats/jsonschema/engine.go). */
module JsonExactness {
  import opened Domain
  import opened JsonSchema
  import opened JsonInclusion
  import opened JsonCompatibility

  /** The writer lists a type the reader does not, but lets nothing through by it that the reader
      refuses: an integer is a number, or no object passes the writer's object keywords. */
  predicate FalseTypes(reader: Doc, writer: Doc)
    requires reader.ObjectDoc? && writer.ObjectDoc?
  {
    reader.types.Some? && writer.types.Some?
    && (|| (IntegerType in writer.types.value && IntegerType !in reader.types.value && NumberType in reader.types.value)
        || (ObjectType in writer.types.value && ObjectType !in reader.types.value && !ObjectSatisfiable(writer)))
  }

  /** The reader names a field that the open writer does not, and accepts there whatever the writer
      does. */
  predicate FalseAddition(reader: Doc, writer: Doc)
    requires reader.ObjectDoc? && writer.ObjectDoc?
  {
    && Open(writer)
    && (exists name :: name in reader.properties && name !in writer.properties
          && (AllowsObject(writer) ==> Covers(reader.properties[name], Rest(writer))))
  }

  /** The closed reader refuses fields that the writer leaves open or names, but accepts nothing in. */
  predicate FalseClosing(reader: Doc, writer: Doc)
    requires reader.ObjectDoc? && writer.ObjectDoc?
  {
    Closed(reader)
    && (|| (!Closed(writer) && (AllowsObject(writer) ==> !Satisfiable(Rest(writer))))
        || (exists name :: name in writer.properties && name !in reader.properties
              && (AllowsObject(writer) ==> !Satisfiable(writer.properties[name]))))
  }

  /** The report is a false alarm, here or in a shared property; so is whatever is reported about the
      properties of a writer that admits no object. Two documents of which one is a boolean are only ever
      accepted when they are the same. */
  predicate FalseAlarm(reader: Doc, writer: Doc) {
    if !reader.ObjectDoc? || !writer.ObjectDoc? then reader != writer
    else
      || FalseTypes(reader, writer)
      || (!AllowsObject(writer) && !(reader.required <= writer.required))
      || FalseAddition(reader, writer)
      || FalseClosing(reader, writer)
      || exists name :: name in reader.properties && name in writer.properties
           && if AllowsObject(writer) then FalseAlarm(reader.properties[name], writer.properties[name])
              else !Accepts(reader.properties[name], writer.properties[name])
  }

  lemma TypesIff(reader: Doc, writer: Doc)
    requires reader.ObjectDoc? && writer.ObjectDoc? && Covers(reader, writer)
    ensures !TypeSuperset(reader.types, writer.types) <==> FalseTypes(reader, writer)
  {
    if reader.types.Some? && writer.types.Some? {
      forall t | t in writer.types.value && t !in reader.types.value
        ensures
          || (t == IntegerType && NumberType in reader.types.value)
          || (t == ObjectType && !ObjectSatisfiable(writer))
      {
        assert Lets(writer.types, t);
        if t != ObjectType { assert Satisfiable(writer); }
        assert t == ObjectType && ObjectSatisfiable(writer) ==> Satisfiable(writer) && AllowsObject(writer);
      }
    }
  }

  lemma ShapeIff(reader: Doc, writer: Doc)
    requires reader.ObjectDoc? && writer.ObjectDoc? && Covers(reader, writer)
    ensures !ShapeAccepts(reader, writer) <==>
      || (!AllowsObject(writer) && !(reader.required <= writer.required))
      || FalseAddition(reader, writer) || FalseClosing(reader, writer)
  {
    if AllowsObject(writer) {
      assert Satisfiable(writer) && ObjectCovers(reader, writer);
      forall name | name in reader.properties && name !in writer.properties
        ensures Covers(reader.properties[name], Rest(writer))
      {
        assert Spec(writer, name) == Rest(writer);
      }
      if Closed(reader) {
        assert RestCovers(reader, Rest(writer)) && !Satisfiable(Rest(writer));
        forall name | name in writer.properties && name !in reader.properties
          ensures !Satisfiable(writer.properties[name])
        {
          assert RestCovers(reader, writer.properties[name]);
        }
      }
    }
    assert reader.properties.Keys <= writer.properties.Keys <==>
      forall name :: name in reader.properties ==> name in writer.properties;
    assert writer.properties.Keys <= reader.properties.Keys <==>
      forall name :: name in writer.properties ==> name in reader.properties;
  }

  lemma SharedIsCovered(reader: Doc, writer: Doc, name: string)
    requires reader.ObjectDoc? && writer.ObjectDoc? && Covers(reader, writer) && AllowsObject(writer)
    requires name in reader.properties && name in writer.properties
    ensures Covers(reader.properties[name], writer.properties[name])
  {
    assert Satisfiable(writer) && ObjectCovers(reader, writer);
    assert Spec(writer, name) == writer.properties[name];
  }

  lemma {:induction false} CoveredAlarmIff(reader: Doc, writer: Doc)
    requires Covers(reader, writer)
    ensures !Accepts(reader, writer) <==> FalseAlarm(reader, writer)
    decreases reader
  {
    if reader.ObjectDoc? && writer.ObjectDoc? {
      TypesIff(reader, writer);
      ShapeIff(reader, writer);
      forall name | name in reader.properties && name in writer.properties && AllowsObject(writer)
        ensures !Accepts(reader.properties[name], writer.properties[name]) <==>
          FalseAlarm(reader.properties[name], writer.properties[name])
      {
        SharedIsCovered(reader, writer, name);
        CoveredAlarmIff(reader.properties[name], writer.properties[name]);
      }
    }
  }

  /** For a compatible pair the comparison reports a problem if and only if the pair is one of the
      listed false alarms; every other compatible pair is accepted. */
  lemma FalseAlarmIff(reader: Doc, writer: Doc)
    requires Includes(reader, writer)
    ensures !Accepts(reader, writer) <==> FalseAlarm(reader, writer)
  {
    CoversIffIncludes(reader, writer);
    CoveredAlarmIff(reader, writer);
  }

  // ---- where the comparison is exact ----

  /** A schema with one type, which is not the excluded one of integer and number, with object keywords
      only on objects, which it admits, and without a schema for additional properties. */
  predicate Regular(d: Doc, excluded: TypeName) {
    && d.ObjectDoc? && d.types.Some? && (exists t :: t in d.types.value && d.types.value == {t} && t != excluded)
    && !d.additional.Sub?
    && (AllowsObject(d) || (ObjectType !in d.types.value && d.required == {} && d.properties == map[] && Open(d)))
    && forall name :: name in d.properties ==> Regular(d.properties[name], excluded)
  }

  predicate Excludable(t: TypeName) { t == IntegerType || t == NumberType }

  lemma {:induction false} RegularIs(d: Doc, excluded: TypeName)
    requires Excludable(excluded) && Regular(d, excluded)
    ensures Satisfiable(d) && !Covers(d, BoolDoc(true)) && Typed(d)
    decreases d
  {
    forall name | name in d.properties ensures Typed(d.properties[name]) {
      RegularIs(d.properties[name], excluded);
    }
    var t :| t in d.types.value && d.types.value == {t};
    var missing := if t == NullType then StringType else NullType;
    assert Lets(None, missing) && !Lets(d.types, missing);
  }

  lemma {:induction false} RegularPairIsPlain(reader: Doc, writer: Doc, excluded: TypeName)
    requires Regular(reader, excluded) && Regular(writer, excluded)
    ensures PlainReader(reader, writer)
    decreases reader
  {
    forall name | name in reader.properties && name in writer.properties
      ensures PlainReader(reader.properties[name], writer.properties[name])
    {
      RegularPairIsPlain(reader.properties[name], writer.properties[name], excluded);
    }
  }

  /** The two documents have the same type. */
  lemma SameType(reader: Doc, writer: Doc, excluded: TypeName)
    requires Excludable(excluded) && Regular(reader, excluded) && Regular(writer, excluded) && Covers(reader, writer)
    ensures reader.types == writer.types && (AllowsObject(reader) <==> AllowsObject(writer))
  {
    RegularIs(writer, excluded);
    var t :| t in writer.types.value && writer.types.value == {t} && t != excluded;
    var u :| u in reader.types.value && reader.types.value == {u} && u != excluded;
    assert ObjectCovers(reader, writer) && Lets(writer.types, t);
    assert Lets(reader.types, t);
  }

  lemma {:induction false} RegularPairRaisesNoAlarm(reader: Doc, writer: Doc, excluded: TypeName)
    requires Excludable(excluded) && Regular(reader, excluded) && Regular(writer, excluded) && Covers(reader, writer)
    ensures !FalseAlarm(reader, writer)
    decreases reader
  {
    RegularIs(writer, excluded);
    SameType(reader, writer, excluded);
    forall name | name in reader.properties ensures !Covers(reader.properties[name], BoolDoc(true)) {
      RegularIs(reader.properties[name], excluded);
    }
    forall name | name in writer.properties ensures Satisfiable(writer.properties[name]) {
      RegularIs(writer.properties[name], excluded);
    }
    forall name | name in reader.properties && name in writer.properties
      ensures !FalseAlarm(reader.properties[name], writer.properties[name])
    {
      SharedIsCovered(reader, writer, name);
      RegularPairRaisesNoAlarm(reader.properties[name], writer.properties[name], excluded);
    }
    assert Open(writer) ==> Rest(writer) == BoolDoc(true);
  }

  /** On regular documents the comparison decides compatibility. */
  lemma ComparisonIsExact(reader: Doc, writer: Doc, excluded: TypeName)
    requires Excludable(excluded) && Regular(reader, excluded) && Regular(writer, excluded)
    ensures Accepts(reader, writer) <==> Includes(reader, writer)
  {
    RegularIs(reader, excluded);
    RegularIs(writer, excluded);
    RegularPairIsPlain(reader, writer, excluded);
    if Accepts(reader, writer) { AcceptedMeansIncluded(reader, writer); }
    if Includes(reader, writer) {
      CoversIffIncludes(reader, writer);
      RegularPairRaisesNoAlarm(reader, writer, excluded);
      FalseAlarmIff(reader, writer);
    }
  }
}
