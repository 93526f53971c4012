/** Comparison of two recorded traces up to a renaming of symbolic values (internal/contract/diff.go). */
module TraceDiff {
  import opened Domain
  import opened Layout

  datatype Json =
    | JNull | JBool(b: bool) | JNumber(n: real) | JString(s: string)
    | JArray(items: seq<Json>) | JObject(fields: map<string, Json>)

  /** Which fields are ignored, which are compared up to renaming in a namespace, and at which paths
      both exceptions are off. */
  datatype Options = Options(headers: seq<string>, symbolic: map<string, string>, opaqueFields: set<string>,
      exact: set<string>)

  /** Values of one namespace on the left and what they are called on the right. */
  type Renaming = map<(string, Json), Json>

  /** Within a namespace no two left values share a right value. */
  ghost predicate Injective(rho: Renaming) {
    forall ns, a, b :: (ns, a) in rho && (ns, b) in rho && rho[(ns, a)] == rho[(ns, b)] ==> a == b
  }

  ghost predicate Within(a: Renaming, b: Renaming) {
    forall k :: k in a ==> k in b && b[k] == a[k]
  }

  function Itoa(n: nat): string {
    Print(Digits(n, 10, DecimalWidth(n)))
  }

  // ---- equality up to a renaming ----

  datatype Pair = Pair(left: Json, right: Json, path: string, field: string)

  predicate Skips(o: Options, t: Pair) { t.field in o.opaqueFields && t.path !in o.exact }

  predicate Renamed(o: Options, t: Pair) { t.field in o.symbolic && t.path !in o.exact }

  function KeyPair(t: Pair, key: string): Pair
    requires t.left.JObject? && t.right.JObject? && key in t.left.fields && key in t.right.fields
  {
    Pair(t.left.fields[key], t.right.fields[key], t.path + "." + key, key)
  }

  function ItemPair(t: Pair, i: nat): Pair
    requires t.left.JArray? && t.right.JArray? && i < |t.left.items| && i < |t.right.items|
  {
    Pair(t.left.items[i], t.right.items[i], t.path + "[" + Itoa(i) + "]", t.field)
  }

  /** The two values are equal outside opaque fields, with symbolic ones renamed by `rho`. */
  ghost predicate Matches(o: Options, rho: Renaming, t: Pair)
    decreases t.left
  {
    if Skips(o, t) then true
    else if Renamed(o, t) then
      var k := (o.symbolic[t.field], t.left);
      k in rho && rho[k] == t.right
    else match t.left
      case JObject(fields) =>
        && t.right.JObject? && fields.Keys == t.right.fields.Keys
        && forall key :: key in fields ==> Matches(o, rho, KeyPair(t, key))
      case JArray(items) =>
        && t.right.JArray? && |items| == |t.right.items|
        && forall i :: 0 <= i < |items| ==> Matches(o, rho, ItemPair(t, i))
      case _ => t.left == t.right
  }

  ghost predicate MatchesAll(o: Options, rho: Renaming, pairs: set<Pair>) {
    forall t :: t in pairs ==> Matches(o, rho, t)
  }

  /** No renaming that extends `base` explains the pairs. */
  ghost predicate Impossible(o: Options, base: Renaming, pairs: set<Pair>) {
    forall rho :: Injective(rho) && Within(base, rho) ==> !MatchesAll(o, rho, pairs)
  }

  /** `rho` explains the pairs, and so does no renaming that lacks part of it. */
  ghost predicate Least(o: Options, base: Renaming, rho: Renaming, pairs: set<Pair>) {
    && Injective(rho) && Within(base, rho) && MatchesAll(o, rho, pairs)
    && forall other :: Injective(other) && Within(base, other) && MatchesAll(o, other, pairs) ==> Within(rho, other)
  }

  lemma {:induction false} MatchesMore(o: Options, a: Renaming, b: Renaming, t: Pair)
    requires Matches(o, a, t) && Within(a, b)
    ensures Matches(o, b, t)
    decreases t.left
  {
    if !Skips(o, t) && !Renamed(o, t) {
      if t.left.JObject? {
        forall key | key in t.left.fields ensures Matches(o, b, KeyPair(t, key)) {
          MatchesMore(o, a, b, KeyPair(t, key));
        }
      } else if t.left.JArray? {
        forall i | 0 <= i < |t.left.items| ensures Matches(o, b, ItemPair(t, i)) {
          MatchesMore(o, a, b, ItemPair(t, i));
        }
      }
    }
  }

  lemma LeastThen(o: Options, base: Renaming, mid: Renaming, end: Renaming, xs: set<Pair>, ys: set<Pair>)
    requires Least(o, base, mid, xs) && Least(o, mid, end, ys)
    ensures Least(o, base, end, xs + ys)
  {
    hide Matches, Injective;
    forall t | t in xs ensures Matches(o, end, t) { MatchesMore(o, mid, end, t); }
    forall other | Injective(other) && Within(base, other) && MatchesAll(o, other, xs + ys) ensures Within(end, other) {
      assert MatchesAll(o, other, xs) && MatchesAll(o, other, ys);
    }
  }

  lemma ImpossibleThen(o: Options, base: Renaming, mid: Renaming, xs: set<Pair>, ys: set<Pair>)
    requires Least(o, base, mid, xs) && Impossible(o, mid, ys)
    ensures Impossible(o, base, xs + ys)
  {
    hide Matches, Injective;
    forall rho | Injective(rho) && Within(base, rho) ensures !MatchesAll(o, rho, xs + ys) {
      assert MatchesAll(o, rho, xs + ys) ==> MatchesAll(o, rho, xs) && MatchesAll(o, rho, ys);
    }
  }

  lemma LeastNothing(o: Options, base: Renaming)
    requires Injective(base)
    ensures Least(o, base, base, {})
  {
  }

  /** The pairs have the same solutions as the one pair. */
  ghost predicate Unfolds(o: Options, t: Pair, pairs: set<Pair>) {
    forall rho :: MatchesAll(o, rho, pairs) <==> Matches(o, rho, t)
  }

  lemma LeastUnfolded(o: Options, base: Renaming, rho: Renaming, t: Pair, pairs: set<Pair>)
    requires Least(o, base, rho, pairs) && Unfolds(o, t, pairs)
    ensures Least(o, base, rho, {t})
  {
    hide Matches;
    forall other ensures MatchesAll(o, other, {t}) <==> MatchesAll(o, other, pairs) {
      assert MatchesAll(o, other, pairs) <==> Matches(o, other, t);
    }
  }

  lemma ImpossibleUnfolded(o: Options, base: Renaming, t: Pair, pairs: set<Pair>)
    requires Impossible(o, base, pairs) && forall rho :: Matches(o, rho, t) ==> MatchesAll(o, rho, pairs)
    ensures Impossible(o, base, {t})
  {
    hide Matches, Injective;
    forall rho | Injective(rho) && Within(base, rho) ensures !MatchesAll(o, rho, {t}) {
      assert MatchesAll(o, rho, {t}) ==> Matches(o, rho, t);
    }
  }

  // ---- objects and arrays as sets of pairs ----

  ghost function KeyPairs(t: Pair, keys: set<string>): set<Pair>
    requires t.left.JObject? && t.right.JObject? && keys <= t.left.fields.Keys && keys <= t.right.fields.Keys
  {
    set key | key in keys :: KeyPair(t, key)
  }

  ghost function ItemPairs(t: Pair, n: nat): set<Pair>
    requires t.left.JArray? && t.right.JArray? && n <= |t.left.items| && n <= |t.right.items|
  {
    set i: nat | i < n :: ItemPair(t, i)
  }

  lemma ObjectUnfolds(o: Options, t: Pair)
    requires !Skips(o, t) && !Renamed(o, t) && t.left.JObject? && t.right.JObject?
    requires t.left.fields.Keys == t.right.fields.Keys
    ensures Unfolds(o, t, KeyPairs(t, t.left.fields.Keys))
  {
    var pairs := KeyPairs(t, t.left.fields.Keys);
    forall rho ensures MatchesAll(o, rho, pairs) <==> Matches(o, rho, t) {
      if MatchesAll(o, rho, pairs) {
        forall key | key in t.left.fields ensures Matches(o, rho, KeyPair(t, key)) { assert KeyPair(t, key) in pairs; }
      }
    }
  }

  lemma ArrayUnfolds(o: Options, t: Pair)
    requires !Skips(o, t) && !Renamed(o, t) && t.left.JArray? && t.right.JArray? && |t.left.items| == |t.right.items|
    ensures Unfolds(o, t, ItemPairs(t, |t.left.items|))
  {
    var pairs := ItemPairs(t, |t.left.items|);
    forall rho ensures MatchesAll(o, rho, pairs) <==> Matches(o, rho, t) {
      if MatchesAll(o, rho, pairs) {
        forall i: nat | i < |t.left.items| ensures Matches(o, rho, ItemPair(t, i)) { assert ItemPair(t, i) in pairs; }
      }
    }
  }

  lemma PartFails(o: Options, base: Renaming, t: Pair, all: set<Pair>, part: set<Pair>)
    requires Unfolds(o, t, all) && part <= all && Impossible(o, base, part)
    ensures Impossible(o, base, {t})
  {
    hide Matches, Impossible;
    forall rho | Matches(o, rho, t) ensures MatchesAll(o, rho, part) {
      assert MatchesAll(o, rho, all);
    }
    ImpossibleUnfolded(o, base, t, part);
  }

  // ---- the symbol table and the comparison ----

  class SymbolTable {
    var forward: map<(string, Json), Json>
    var reverse: map<(string, Json), Json>

    /** The two tables are inverse to each other. */
    ghost predicate Valid()
      reads this
    {
      && (forall ns, a :: (ns, a) in forward ==>
          (ns, forward[(ns, a)]) in reverse && reverse[(ns, forward[(ns, a)])] == a)
      && (forall ns, b :: (ns, b) in reverse ==>
          (ns, reverse[(ns, b)]) in forward && forward[(ns, reverse[(ns, b)])] == b)
    }

    constructor ()
      ensures Valid() && forward == map[]
    {
      forward, reverse := map[], map[];
    }

    lemma ValidIsInjective()
      requires Valid()
      ensures Injective(forward)
    {
    }

    method Match(ns: string, left: Json, right: Json) returns (ok: bool)
      requires Valid()
      modifies this
      ensures Valid()
      ensures ok ==> forward == old(forward)[(ns, left) := right] && ((ns, left) in old(forward) ==>
        forward == old(forward))
      ensures !ok ==> forward == old(forward)
      ensures !ok ==>
        forall rho :: Injective(rho) && Within(forward, rho) && (ns, left) in rho ==> rho[(ns, left)] != right
    {
      if (ns, left) in forward { return forward[(ns, left)] == right; }
      if (ns, right) in reverse {
        assert forward[(ns, reverse[(ns, right)])] == right;
        return reverse[(ns, right)] == left;
      }
      forward := forward[(ns, left) := right];
      reverse := reverse[(ns, right) := left];
      ok := true;
    }

    /** Compares one value; a difference names the path of some mismatch. The table grows by
        exactly the pairs every solution needs. */
    method Compare(o: Options, t: Pair) returns (difference: Option<string>)
      requires Valid()
      modifies this
      ensures Valid()
      ensures difference.None? ==> Least(o, old(forward), forward, {t})
      ensures difference.Some? ==> Impossible(o, old(forward), {t})
      decreases t.left, 1
    {
      hide Least, Impossible;
      ValidIsInjective();
      if Skips(o, t) {
        NothingToMatch(o, forward, t);
        return None;
      }
      if Renamed(o, t) {
        var ok := Match(o.symbolic[t.field], t.left, t.right);
        ValidIsInjective();
        SymbolMatched(o, old(forward), forward, t, ok);
        return if ok then None else Some(t.path);
      }
      match t.left {
        case JObject(_) => difference := CompareObjects(o, t);
        case JArray(_) => difference := CompareArrays(o, t);
        case _ =>
          PlainMatch(o, forward, t);
          difference := if t.left == t.right then None else Some(t.path);
      }
    }

    method CompareObjects(o: Options, t: Pair) returns (difference: Option<string>)
      requires Valid() && !Skips(o, t) && !Renamed(o, t) && t.left.JObject?
      modifies this
      ensures Valid()
      ensures difference.None? ==> Least(o, old(forward), forward, {t})
      ensures difference.Some? ==> Impossible(o, old(forward), {t})
      decreases t.left, 0
    {
      hide Least, Impossible, Valid, Unfolds;
      if !t.right.JObject? || |t.left.fields| != |t.right.fields| {
        ShapesDiffer(o, old(forward), t);
        return Some(t.path);
      }
      var rest := t.left.fields.Keys;
      ghost var done: set<string> := {};
      ValidIsInjective();
      LeastNothing(o, forward);
      assert KeyPairs(t, {}) == {};
      while rest != {}
        invariant Valid() && rest + done == t.left.fields.Keys && done <= t.right.fields.Keys
        invariant Least(o, old(forward), forward, KeyPairs(t, done))
      {
        var key :| key in rest;
        if key !in t.right.fields {
          ShapesDiffer(o, old(forward), t);
          return Some(t.path + "." + key);
        }
        ghost var mid := forward;
        var nested := Compare(o, KeyPair(t, key));
        assert KeyPairs(t, done + {key}) == KeyPairs(t, done) + {KeyPair(t, key)};
        if nested.Some? {
          ImpossibleThen(o, old(forward), mid, KeyPairs(t, done), {KeyPair(t, key)});
          KeyFails(o, old(forward), t, done + {key});
          return nested;
        }
        LeastThen(o, old(forward), mid, forward, KeyPairs(t, done), {KeyPair(t, key)});
        done, rest := done + {key}, rest - {key};
      }
      SameKeys(t);
      ObjectUnfolds(o, t);
      LeastUnfolded(o, old(forward), forward, t, KeyPairs(t, done));
      difference := None;
    }

    method CompareArrays(o: Options, t: Pair) returns (difference: Option<string>)
      requires Valid() && !Skips(o, t) && !Renamed(o, t) && t.left.JArray?
      modifies this
      ensures Valid()
      ensures difference.None? ==> Least(o, old(forward), forward, {t})
      ensures difference.Some? ==> Impossible(o, old(forward), {t})
      decreases t.left, 0
    {
      hide Least, Impossible, Valid, Unfolds;
      if !t.right.JArray? || |t.left.items| != |t.right.items| {
        ShapesDiffer(o, old(forward), t);
        return Some(t.path);
      }
      ArrayUnfolds(o, t);
      ValidIsInjective();
      LeastNothing(o, forward);
      assert ItemPairs(t, 0) == {};
      for i := 0 to |t.left.items|
        invariant Valid() && Least(o, old(forward), forward, ItemPairs(t, i))
      {
        ghost var mid := forward;
        var nested := Compare(o, ItemPair(t, i));
        assert ItemPairs(t, i + 1) == ItemPairs(t, i) + {ItemPair(t, i)};
        if nested.Some? {
          ImpossibleThen(o, old(forward), mid, ItemPairs(t, i), {ItemPair(t, i)});
          PartFails(o, old(forward), t, ItemPairs(t, |t.left.items|), ItemPairs(t, i + 1));
          return nested;
        }
        LeastThen(o, old(forward), mid, forward, ItemPairs(t, i), {ItemPair(t, i)});
      }
      LeastUnfolded(o, old(forward), forward, t, ItemPairs(t, |t.left.items|));
      difference := None;
    }
  }

  lemma NothingToMatch(o: Options, base: Renaming, t: Pair)
    requires Skips(o, t) && Injective(base)
    ensures Least(o, base, base, {t})
  {
    assert Matches(o, base, t);
  }

  lemma SymbolMatched(o: Options, base: Renaming, after: Renaming, t: Pair, ok: bool)
    requires !Skips(o, t) && Renamed(o, t) && Injective(after)
    requires var k := (o.symbolic[t.field], t.left);
      && (ok ==> after == base[k := t.right] && (k in base ==> after == base))
      && (!ok ==> after == base && forall rho :: Injective(rho) && Within(base, rho) && k in rho ==> rho[k] != t.right)
    ensures if ok then Least(o, base, after, {t}) else Impossible(o, base, {t})
  {
    var k := (o.symbolic[t.field], t.left);
    forall rho ensures MatchesAll(o, rho, {t}) <==> k in rho && rho[k] == t.right {
      assert MatchesAll(o, rho, {t}) <==> Matches(o, rho, t);
    }
  }

  lemma PlainMatch(o: Options, base: Renaming, t: Pair)
    requires !Skips(o, t) && !Renamed(o, t) && !t.left.JObject? && !t.left.JArray? && Injective(base)
    ensures if t.left == t.right then Least(o, base, base, {t}) else Impossible(o, base, {t})
  {
    forall rho ensures MatchesAll(o, rho, {t}) <==> t.left == t.right {
      assert MatchesAll(o, rho, {t}) <==> Matches(o, rho, t);
    }
  }

  lemma ShapesDiffer(o: Options, base: Renaming, t: Pair)
    requires !Skips(o, t) && !Renamed(o, t)
    requires
      || (t.left.JObject? && (!t.right.JObject? || t.left.fields.Keys != t.right.fields.Keys))
      || (t.left.JArray? && (!t.right.JArray? || |t.left.items| != |t.right.items|))
    ensures Impossible(o, base, {t})
  {
    forall rho ensures !MatchesAll(o, rho, {t}) {
      assert MatchesAll(o, rho, {t}) <==> Matches(o, rho, t);
    }
  }

  lemma SameKeys(t: Pair)
    requires t.left.JObject? && t.right.JObject? && |t.left.fields| == |t.right.fields|
    requires t.left.fields.Keys <= t.right.fields.Keys
    ensures t.left.fields.Keys == t.right.fields.Keys
  {
    var extra := t.right.fields.Keys - t.left.fields.Keys;
    assert t.right.fields.Keys == t.left.fields.Keys + extra;
    assert |t.right.fields.Keys| == |t.right.fields| && |t.left.fields.Keys| == |t.left.fields|;
    assert |extra| == 0;
  }

  lemma KeyFails(o: Options, base: Renaming, t: Pair, keys: set<string>)
    requires !Skips(o, t) && !Renamed(o, t) && t.left.JObject? && t.right.JObject?
    requires keys <= t.left.fields.Keys && keys <= t.right.fields.Keys && Impossible(o, base, KeyPairs(t, keys))
    ensures Impossible(o, base, {t})
  {
    hide Impossible;
    if t.left.fields.Keys != t.right.fields.Keys {
      ShapesDiffer(o, base, t);
    } else {
      ObjectUnfolds(o, t);
      PartFails(o, base, t, KeyPairs(t, t.left.fields.Keys), KeyPairs(t, keys));
    }
  }

  // ---- traces ----

  datatype Exchange = Exchange(verb: string, status: int, headers: map<string, seq<string>>, body: string)

  /** Go's JSON decoder, its notion of a blank body, and its canonical header names. */
  datatype Codec = Codec(parse: string -> Option<Json>, blank: string -> bool, canonical: string -> string)

  /** Header values are compared sorted, so up to order. */
  function HeaderValues(k: Codec, e: Exchange, name: string): multiset<string> {
    if k.canonical(name) in e.headers then multiset(e.headers[k.canonical(name)]) else multiset{}
  }

  predicate HeadsAgree(o: Options, k: Codec, left: Exchange, right: Exchange) {
    && left.verb == right.verb && left.status == right.status
    && forall i :: 0 <= i < |o.headers| ==> HeaderValues(k, left, o.headers[i]) == HeaderValues(k, right, o.headers[i])
  }

  /** Both bodies decode, so they are compared as values. */
  predicate Decoded(k: Codec, left: string, right: string) {
    !(k.blank(left) && k.blank(right)) && k.parse(left).Some? && k.parse(right).Some?
  }

  function BodyPair(k: Codec, left: string, right: string): Pair
    requires Decoded(k, left, right)
  {
    Pair(k.parse(left).value, k.parse(right).value, "$", "")
  }

  ghost predicate BodyMatches(o: Options, k: Codec, rho: Renaming, left: string, right: string) {
    if Decoded(k, left, right) then Matches(o, rho, BodyPair(k, left, right))
    else (k.blank(left) && k.blank(right)) || left == right
  }

  /** One renaming, injective in every namespace, explains the whole trace. */
  ghost predicate Explains(o: Options, k: Codec, rho: Renaming, left: seq<Exchange>, right: seq<Exchange>) {
    && Injective(rho) && |left| == |right|
    && forall i :: 0 <= i < |left| ==>
        HeadsAgree(o, k, left[i], right[i]) && BodyMatches(o, k, rho, left[i].body, right[i].body)
  }

  ghost predicate Equivalent(o: Options, k: Codec, left: seq<Exchange>, right: seq<Exchange>) {
    exists rho: Renaming :: Explains(o, k, rho, left, right)
  }

  ghost function BodyPairs(k: Codec, left: seq<Exchange>, right: seq<Exchange>, n: nat): set<Pair>
    requires n <= |left| && n <= |right|
  {
    set i: nat | i < n && Decoded(k, left[i].body, right[i].body) :: BodyPair(k, left[i].body, right[i].body)
  }

  method CompareHeads(o: Options, k: Codec, left: Exchange, right: Exchange) returns (ok: bool)
    ensures ok <==> HeadsAgree(o, k, left, right)
  {
    if left.verb != right.verb || left.status != right.status { return false; }
    for i := 0 to |o.headers|
      invariant forall j :: 0 <= j < i ==> HeaderValues(k, left, o.headers[j]) == HeaderValues(k, right, o.headers[j])
    {
      if HeaderValues(k, left, o.headers[i]) != HeaderValues(k, right, o.headers[i]) { return false; }
    }
    ok := true;
  }

  /** The traces compare equal exactly when one renaming explains them; a difference names an
      exchange. */
  method CompareTraces(
    o: Options, k: Codec, left: seq<Exchange>, right: seq<Exchange>) returns (difference: Option<(nat, string)>)
    ensures difference.None? <==> Equivalent(o, k, left, right)
  {
    hide Least, Impossible, Matches, HeadsAgree, Decoded, BodyPair;
    if |left| != |right| { return Some((0, "$.exchanges")); }
    var symbols := new SymbolTable();
    symbols.ValidIsInjective();
    LeastNothing(o, symbols.forward);
    assert BodyPairs(k, left, right, 0) == {};
    for i := 0 to |left|
      invariant fresh(symbols) && symbols.Valid() && Least(o, map[], symbols.forward, BodyPairs(k, left, right, i))
      invariant forall j :: 0 <= j < i ==> HeadsAgree(o, k, left[j], right[j])
      invariant forall j :: 0 <= j < i ==> Comparable(k, left[j].body, right[j].body)
    {
      var heads := CompareHeads(o, k, left[i], right[i]);
      if !heads { return Some((i, "$")); }
      var a, b := left[i].body, right[i].body;
      ghost var pairs, mid := BodyPairs(k, left, right, i), symbols.forward;
      if !Decoded(k, a, b) {
        assert BodyPairs(k, left, right, i + 1) == pairs;
        if !(k.blank(a) && k.blank(b)) && a != b { return Some((i, "$.body")); }
      } else {
        var found := symbols.Compare(o, BodyPair(k, a, b));
        assert BodyPairs(k, left, right, i + 1) == pairs + {BodyPair(k, a, b)};
        if found.Some? {
          ImpossibleThen(o, map[], mid, pairs, {BodyPair(k, a, b)});
          NoExplanation(o, k, left, right, i + 1);
          return Some((i, found.value));
        }
        LeastThen(o, map[], mid, symbols.forward, pairs, {BodyPair(k, a, b)});
      }
    }
    LeastExplains(o, k, symbols.forward, left, right);
    difference := None;
  }

  predicate Comparable(k: Codec, left: string, right: string) {
    Decoded(k, left, right) || (k.blank(left) && k.blank(right)) || left == right
  }

  lemma NoExplanation(o: Options, k: Codec, left: seq<Exchange>, right: seq<Exchange>, n: nat)
    requires n <= |left| == |right| && Impossible(o, map[], BodyPairs(k, left, right, n))
    ensures !Equivalent(o, k, left, right)
  {
    hide Matches, Decoded, HeadsAgree;
    forall rho: Renaming ensures !Explains(o, k, rho, left, right) {
      assert Within(map[], rho);
      if Explains(o, k, rho, left, right) { ExplainedPairs(o, k, rho, left, right, n); }
    }
  }

  lemma ExplainedPairs(o: Options, k: Codec, rho: Renaming, left: seq<Exchange>, right: seq<Exchange>, n: nat)
    requires Explains(o, k, rho, left, right) && n <= |left|
    ensures MatchesAll(o, rho, BodyPairs(k, left, right, n))
  {
    hide Matches, Decoded, HeadsAgree, BodyPair;
    forall t | t in BodyPairs(k, left, right, n) ensures Matches(o, rho, t) {
      var i: nat :| i < n && Decoded(k, left[i].body, right[i].body) && t == BodyPair(k, left[i].body, right[i].body);
      assert BodyMatches(o, k, rho, left[i].body, right[i].body);
    }
  }

  lemma LeastExplains(o: Options, k: Codec, rho: Renaming, left: seq<Exchange>, right: seq<Exchange>)
    requires |left| == |right| && Least(o, map[], rho, BodyPairs(k, left, right, |left|))
    requires forall j :: 0 <= j < |left| ==>
      HeadsAgree(o, k, left[j], right[j]) && Comparable(k, left[j].body, right[j].body)
    ensures Explains(o, k, rho, left, right)
  {
    hide Matches, Decoded, HeadsAgree, BodyPair;
    forall i: nat | i < |left| ensures BodyMatches(o, k, rho, left[i].body, right[i].body) {
      if Decoded(k, left[i].body, right[i].body) {
        assert BodyPair(k, left[i].body, right[i].body) in BodyPairs(k, left, right, |left|);
      }
    }
  }
}
