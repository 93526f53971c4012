/** JSON Schema documents, what draft-07 lets them accept, and the registry's comparison of two of
    them (internal/formats/jsonschema/engine.go).

    A document carries the keywords the comparison looks at. `Valid` follows sections 6.1.1, 6.5.3,
    6.5.4 and 6.5.6 of JSON Schema Validation draft-07. */
module JsonSchema {
  import opened Domain

  datatype TypeName = NullType | BooleanType | IntegerType | NumberType | StringType | ArrayType | ObjectType

  datatype Additional = Absent | Flag(open: bool) | Sub(doc: Doc)

  datatype Doc =
    | BoolDoc(accept: bool)
    | ObjectDoc(types: Option<set<TypeName>>, required: set<string>, properties: map<string, Doc>,
        additional: Additional)

  datatype Value =
    | Null | Boolean(b: bool) | Number(n: real) | Text(s: string) | List(items: seq<Value>)
    | Object(fields: map<string, Value>)

  // ---- draft-07 ----

  /** A number without a fractional part is both an integer and a number. */
  predicate HasType(v: Value, t: TypeName) {
    match t
    case NullType => v.Null?
    case BooleanType => v.Boolean?
    case IntegerType => v.Number? && v.n.Floor as real == v.n
    case NumberType => v.Number?
    case StringType => v.Text?
    case ArrayType => v.List?
    case ObjectType => v.Object?
  }

  predicate TypeAllows(types: Option<set<TypeName>>, v: Value) {
    types.Some? ==> exists t :: t in types.value && HasType(v, t)
  }

  ghost predicate FieldValid(d: Doc, name: string, v: Value)
    requires d.ObjectDoc?
    decreases d, 0
  {
    if name in d.properties then Valid(d.properties[name], v)
    else match d.additional
      case Absent => true
      case Flag(open) => open
      case Sub(doc) => Valid(doc, v)
  }

  ghost predicate Valid(d: Doc, v: Value)
    decreases d, 1
  {
    match d
    case BoolDoc(accept) => accept
    case ObjectDoc(types, required, properties, additional) =>
      && TypeAllows(types, v)
      && (v.Object? ==> required <= v.fields.Keys && forall name :: name in v.fields ==>
          FieldValid(d, name, v.fields[name]))
  }

  ghost predicate Includes(reader: Doc, writer: Doc) {
    forall v :: Valid(writer, v) ==> Valid(reader, v)
  }

  // ---- the comparison ----

  predicate TypeSuperset(reader: Option<set<TypeName>>, writer: Option<set<TypeName>>) {
    reader.Some? && writer.Some? ==> writer.value <= reader.value
  }

  predicate Open(d: Doc)
    requires d.ObjectDoc?
  {
    !d.additional.Flag? || d.additional.open
  }

  predicate Closed(d: Doc)
    requires d.ObjectDoc?
  {
    d.additional.Flag? && !d.additional.open
  }

  /** Everything the comparison asks of two object schemas besides their shared properties. */
  predicate ShapeAccepts(reader: Doc, writer: Doc)
    requires reader.ObjectDoc? && writer.ObjectDoc?
  {
    && reader.required <= writer.required
    && (Open(writer) ==> reader.properties.Keys <= writer.properties.Keys)
    && (Closed(reader) ==> writer.properties.Keys <= reader.properties.Keys && Closed(writer))
  }

  /** The comparison reports nothing. */
  predicate Accepts(reader: Doc, writer: Doc) {
    if !reader.ObjectDoc? || !writer.ObjectDoc? then reader == writer
    else
      && TypeSuperset(reader.types, writer.types)
      && ShapeAccepts(reader, writer)
      && forall name :: name in reader.properties && name in writer.properties ==>
           Accepts(reader.properties[name], writer.properties[name])
  }

  datatype Message =
    | Changed(path: seq<string>)
    | NarrowsType(path: seq<string>)
    | RequiresNew(path: seq<string>, name: string)
    | AddsToOpenContent(path: seq<string>, name: string)
    | WriterAddsToClosed(path: seq<string>, name: string)
    | ClosesOpen(path: seq<string>)

  /** One loop of the comparison: a message for each name of `names` that `fine` lacks. */
  method Report(names: set<string>, fine: set<string>, report: string -> Message) returns (messages: seq<Message>)
    ensures messages == [] <==> names <= fine
    ensures forall m :: m in messages <==> exists name :: name in names && name !in fine && m == report(name)
  {
    messages := [];
    var rest := names;
    while rest != {}
      invariant rest <= names
      invariant messages == [] <==> names - rest <= fine
      invariant forall m :: m in messages <==> exists name :: name in names - rest && name !in fine && m == report(name)
    {
      var name :| name in rest;
      if name !in fine { messages := messages + [report(name)]; }
      assert names - (rest - {name}) == names - rest + {name};
      rest := rest - {name};
    }
    assert names - rest == names;
  }

  method CompareDocuments(reader: Doc, writer: Doc, path: seq<string>) returns (messages: seq<Message>)
    ensures messages == [] <==> Accepts(reader, writer)
    decreases reader
  {
    if !reader.ObjectDoc? || !writer.ObjectDoc? {
      return if reader != writer then [Changed(path)] else [];
    }
    if !TypeSuperset(reader.types, writer.types) { return [NarrowsType(path)]; }
    messages := Report(reader.required, writer.required, name => RequiresNew(path, name));
    if Open(writer) {
      var added := Report(reader.properties.Keys, writer.properties.Keys, name => AddsToOpenContent(path, name));
      messages := messages + added;
    }
    var nested := CompareProperties(reader, writer, path);
    messages := messages + nested;
    if Closed(reader) {
      var extra := Report(writer.properties.Keys, reader.properties.Keys, name => WriterAddsToClosed(path, name));
      messages := messages + extra + if Closed(writer) then [] else [ClosesOpen(path)];
    }
  }

  /** The loop over the writer's properties. */
  method CompareProperties(reader: Doc, writer: Doc, path: seq<string>) returns (messages: seq<Message>)
    requires reader.ObjectDoc? && writer.ObjectDoc?
    ensures messages == [] <==>
      forall name :: name in reader.properties && name in writer.properties ==>
        Accepts(reader.properties[name], writer.properties[name])
    decreases reader, 0
  {
    messages := [];
    var rest := writer.properties.Keys;
    while rest != {}
      invariant rest <= writer.properties.Keys
      invariant messages == [] <==>
        forall name :: name in reader.properties && name in writer.properties && name !in rest ==>
          Accepts(reader.properties[name], writer.properties[name])
    {
      var name :| name in rest;
      if name in reader.properties {
        var nested := CompareDocuments(reader.properties[name], writer.properties[name], path + ["properties", name]);
        messages := messages + nested;
      }
      rest := rest - {name};
    }
  }

  /** The policy: which documents are compared in which direction. */
  predicate Agrees(level: Level, candidate: Doc, previous: Doc) {
    match level
    case NoCheck => true
    case Backward => Accepts(candidate, previous)
    case BackwardTransitive => Accepts(candidate, previous)
    case Forward => Accepts(previous, candidate)
    case ForwardTransitive => Accepts(previous, candidate)
    case Full => Accepts(candidate, previous) && Accepts(previous, candidate)
    case FullTransitive => Accepts(candidate, previous) && Accepts(previous, candidate)
    case UnknownLevel(_) => false
  }

  method Compatible(level: Level, candidate: Doc, previous: seq<Doc>) returns (r: Outcome<bool>)
    ensures r.Err? <==> level.UnknownLevel?
    ensures r.Ok? ==> (r.value <==> forall i :: 0 <= i < |previous| ==> Agrees(level, candidate, previous[i]))
  {
    if !level.Valid() { return Err(Invalid); }
    if level.NoCheck? { return Ok(true); }
    var messages: seq<Message> := [];
    for i := 0 to |previous|
      invariant messages == [] <==> forall j :: 0 <= j < i ==> Agrees(level, candidate, previous[j])
    {
      if level.Backward? || level.BackwardTransitive? || level.Full? || level.FullTransitive? {
        var found := CompareDocuments(candidate, previous[i], []);
        messages := messages + found;
      }
      if level.Forward? || level.ForwardTransitive? || level.Full? || level.FullTransitive? {
        var found := CompareDocuments(previous[i], candidate, []);
        messages := messages + found;
      }
    }
    r := Ok(messages == []);
  }
}
