/** The trace comparison decides an equivalence relation (internal/contract/diff.go). */
module TraceEquivalence {
  import opened Domain
  import opened TraceDiff

  // ---- reflexivity ----

  ghost predicate IsIdentity(rho: Renaming) {
    forall k :: k in rho ==> rho[k] == k.1
  }

  lemma JoinIdentities(a: Renaming, b: Renaming) returns (c: Renaming)
    requires IsIdentity(a) && IsIdentity(b)
    ensures IsIdentity(c) && Within(a, c) && Within(b, c)
  {
    c := a + b;
  }

  lemma {:induction false} SelfMatch(o: Options, t: Pair) returns (rho: Renaming)
    requires t.left == t.right
    ensures IsIdentity(rho) && Matches(o, rho, t)
    decreases t.left
  {
    rho := map[];
    if !Skips(o, t) {
      if Renamed(o, t) {
        rho := map[(o.symbolic[t.field], t.left) := t.left];
      } else if t.left.JObject? {
        rho := SelfMatchKeys(o, t, t.left.fields.Keys);
      } else if t.left.JArray? {
        rho := SelfMatchItems(o, t, |t.left.items|);
      }
    }
  }

  lemma {:induction false} SelfMatchKeys(o: Options, t: Pair, keys: set<string>) returns (rho: Renaming)
    requires t.left == t.right && t.left.JObject? && keys <= t.left.fields.Keys
    ensures IsIdentity(rho) && forall key :: key in keys ==> Matches(o, rho, KeyPair(t, key))
    decreases t.left, 0, |keys|
  {
    hide Matches;
    rho := map[];
    if keys != {} {
      var key :| key in keys;
      var a := SelfMatchKeys(o, t, keys - {key});
      var b := SelfMatch(o, KeyPair(t, key));
      rho := JoinIdentities(a, b);
      MatchesMore(o, b, rho, KeyPair(t, key));
      forall other | other in keys - {key} ensures Matches(o, rho, KeyPair(t, other)) {
        MatchesMore(o, a, rho, KeyPair(t, other));
      }
    }
  }

  lemma {:induction false} SelfMatchItems(o: Options, t: Pair, n: nat) returns (rho: Renaming)
    requires t.left == t.right && t.left.JArray? && n <= |t.left.items|
    ensures IsIdentity(rho) && forall i :: 0 <= i < n ==> Matches(o, rho, ItemPair(t, i))
    decreases t.left, 0, n
  {
    hide Matches;
    rho := map[];
    if n > 0 {
      var a := SelfMatchItems(o, t, n - 1);
      var b := SelfMatch(o, ItemPair(t, n - 1));
      rho := JoinIdentities(a, b);
      MatchesMore(o, b, rho, ItemPair(t, n - 1));
      forall i | 0 <= i < n - 1 ensures Matches(o, rho, ItemPair(t, i)) { MatchesMore(o, a, rho, ItemPair(t, i)); }
    }
  }

  lemma {:induction false} SelfExplains(o: Options, k: Codec, trace: seq<Exchange>) returns (rho: Renaming)
    ensures IsIdentity(rho) && Explains(o, k, rho, trace, trace)
    decreases |trace|
  {
    hide Matches;
    rho := map[];
    if trace != [] {
      var n := |trace| - 1;
      rho := SelfExplains(o, k, trace[..n]);
      var body := trace[n].body;
      if Decoded(k, body, body) {
        var before := rho;
        var b := SelfMatch(o, BodyPair(k, body, body));
        rho := JoinIdentities(before, b);
        MatchesMore(o, b, rho, BodyPair(k, body, body));
        forall i | 0 <= i < n ensures BodyMatches(o, k, rho, trace[i].body, trace[i].body) {
          assert BodyMatches(o, k, before, trace[..n][i].body, trace[..n][i].body);
          if Decoded(k, trace[i].body, trace[i].body) {
            MatchesMore(o, before, rho, BodyPair(k, trace[i].body, trace[i].body));
          }
        }
      } else {
        forall i | 0 <= i < n ensures BodyMatches(o, k, rho, trace[i].body, trace[i].body) {
          assert BodyMatches(o, k, rho, trace[..n][i].body, trace[..n][i].body);
        }
      }
    }
  }

  lemma EquivalentReflexive(o: Options, k: Codec, trace: seq<Exchange>)
    ensures Equivalent(o, k, trace, trace)
  {
    var rho := SelfExplains(o, k, trace);
  }

  // ---- symmetry ----

  ghost function Inverse(rho: Renaming): Renaming
    requires Injective(rho)
  {
    map k | k in rho :: (k.0, rho[k]) := k.1
  }

  lemma InverseAt(rho: Renaming, ns: string, a: Json)
    requires Injective(rho) && (ns, a) in rho
    ensures (ns, rho[(ns, a)]) in Inverse(rho) && Inverse(rho)[(ns, rho[(ns, a)])] == a
  {
  }

  lemma InverseInjective(rho: Renaming)
    requires Injective(rho)
    ensures Injective(Inverse(rho))
  {
    var inv := Inverse(rho);
    forall ns, a, b | (ns, a) in inv && (ns, b) in inv && inv[(ns, a)] == inv[(ns, b)] ensures a == b {
      var x :| (ns, x) in rho && rho[(ns, x)] == a;
      var y :| (ns, y) in rho && rho[(ns, y)] == b;
      InverseAt(rho, ns, x);
      InverseAt(rho, ns, y);
    }
  }

  function Swap(t: Pair): Pair { Pair(t.right, t.left, t.path, t.field) }

  lemma {:induction false} MatchesSwapped(o: Options, rho: Renaming, t: Pair)
    requires Injective(rho) && Matches(o, rho, t)
    ensures Matches(o, Inverse(rho), Swap(t))
    decreases t.left
  {
    if !Skips(o, t) {
      if Renamed(o, t) {
        InverseAt(rho, o.symbolic[t.field], t.left);
      } else if t.left.JObject? {
        forall key | key in t.right.fields ensures Matches(o, Inverse(rho), KeyPair(Swap(t), key)) {
          MatchesSwapped(o, rho, KeyPair(t, key));
        }
      } else if t.left.JArray? {
        forall i | 0 <= i < |t.right.items| ensures Matches(o, Inverse(rho), ItemPair(Swap(t), i)) {
          MatchesSwapped(o, rho, ItemPair(t, i));
        }
      }
    }
  }

  lemma EquivalentSymmetric(o: Options, k: Codec, left: seq<Exchange>, right: seq<Exchange>)
    requires Equivalent(o, k, left, right)
    ensures Equivalent(o, k, right, left)
  {
    hide Matches, Inverse;
    var rho: Renaming :| Explains(o, k, rho, left, right);
    InverseInjective(rho);
    forall i | 0 <= i < |right|
      ensures HeadsAgree(o, k, right[i], left[i]) && BodyMatches(o, k, Inverse(rho), right[i].body, left[i].body)
    {
      assert BodyMatches(o, k, rho, left[i].body, right[i].body);
      if Decoded(k, left[i].body, right[i].body) { MatchesSwapped(o, rho, BodyPair(k, left[i].body, right[i].body)); }
    }
    assert Explains(o, k, Inverse(rho), right, left);
  }

  // ---- transitivity ----

  ghost function Then(rho: Renaming, sigma: Renaming): Renaming {
    map k | k in rho && (k.0, rho[k]) in sigma :: sigma[(k.0, rho[k])]
  }

  lemma ThenInjective(rho: Renaming, sigma: Renaming)
    requires Injective(rho) && Injective(sigma)
    ensures Injective(Then(rho, sigma))
  {
  }

  lemma {:induction false} MatchesThen(o: Options, rho: Renaming, sigma: Renaming, t: Pair, u: Pair)
    requires t.right == u.left && t.path == u.path && t.field == u.field && Matches(o, rho, t) && Matches(o, sigma, u)
    ensures Matches(o, Then(rho, sigma), Pair(t.left, u.right, t.path, t.field))
    decreases t.left
  {
    var v := Pair(t.left, u.right, t.path, t.field);
    if !Skips(o, t) && !Renamed(o, t) {
      if t.left.JObject? {
        forall key | key in t.left.fields ensures Matches(o, Then(rho, sigma), KeyPair(v, key)) {
          MatchesThen(o, rho, sigma, KeyPair(t, key), KeyPair(u, key));
        }
      } else if t.left.JArray? {
        forall i | 0 <= i < |t.left.items| ensures Matches(o, Then(rho, sigma), ItemPair(v, i)) {
          MatchesThen(o, rho, sigma, ItemPair(t, i), ItemPair(u, i));
        }
      }
    }
  }

  lemma BodiesThen(o: Options, k: Codec, rho: Renaming, sigma: Renaming, a: string, b: string, c: string)
    requires forall raw :: k.blank(raw) ==> k.parse(raw).None?
    requires BodyMatches(o, k, rho, a, b) && BodyMatches(o, k, sigma, b, c)
    ensures BodyMatches(o, k, Then(rho, sigma), a, c)
  {
    hide Matches;
    if Decoded(k, a, b) && Decoded(k, b, c) {
      MatchesThen(o, rho, sigma, BodyPair(k, a, b), BodyPair(k, b, c));
    }
  }

  /** With the decoder refusing blank bodies, as Go's does. */
  lemma EquivalentTransitive(o: Options, k: Codec, a: seq<Exchange>, b: seq<Exchange>, c: seq<Exchange>)
    requires forall raw :: k.blank(raw) ==> k.parse(raw).None?
    requires Equivalent(o, k, a, b) && Equivalent(o, k, b, c)
    ensures Equivalent(o, k, a, c)
  {
    hide BodyMatches, Then;
    var rho: Renaming :| Explains(o, k, rho, a, b);
    var sigma: Renaming :| Explains(o, k, sigma, b, c);
    ThenInjective(rho, sigma);
    forall i | 0 <= i < |a|
      ensures HeadsAgree(o, k, a[i], c[i]) && BodyMatches(o, k, Then(rho, sigma), a[i].body, c[i].body)
    {
      BodiesThen(o, k, rho, sigma, a[i].body, b[i].body, c[i].body);
    }
    assert Explains(o, k, Then(rho, sigma), a, c);
  }

  // ---- without exceptions ----

  /** With no opaque and no symbolic field, values match exactly when they are equal. */
  lemma {:induction false} ExactMatchIff(o: Options, rho: Renaming, t: Pair)
    requires o.symbolic == map[] && o.opaqueFields == {}
    ensures Matches(o, rho, t) <==> t.left == t.right
    decreases t.left
  {
    if t.left.JObject? {
      if t.right.JObject? && t.left.fields.Keys == t.right.fields.Keys {
        forall key | key in t.left.fields
          ensures Matches(o, rho, KeyPair(t, key)) <==> t.left.fields[key] == t.right.fields[key]
        {
          ExactMatchIff(o, rho, KeyPair(t, key));
        }
        assert (forall key :: key in t.left.fields ==> t.left.fields[key] == t.right.fields[key]) <==>
          t.left.fields == t.right.fields;
      }
    } else if t.left.JArray? {
      if t.right.JArray? && |t.left.items| == |t.right.items| {
        forall i | 0 <= i < |t.left.items|
          ensures Matches(o, rho, ItemPair(t, i)) <==> t.left.items[i] == t.right.items[i]
        {
          ExactMatchIff(o, rho, ItemPair(t, i));
        }
        assert (forall i :: 0 <= i < |t.left.items| ==> t.left.items[i] == t.right.items[i]) <==>
          t.left.items == t.right.items;
      }
    }
  }

  /** The bodies are both blank, decode to one value, or are the same text. */
  ghost predicate SameBody(k: Codec, left: string, right: string) {
    || (k.blank(left) && k.blank(right)) || left == right
    || (k.parse(left).Some? && k.parse(left) == k.parse(right))
  }

  /** Then two traces are equivalent exactly when they are as long, and agree in every method, status,
      relevant header and body. */
  lemma ExactComparisonIff(o: Options, k: Codec, left: seq<Exchange>, right: seq<Exchange>)
    requires o.symbolic == map[] && o.opaqueFields == {}
    ensures Equivalent(o, k, left, right) <==>
      && |left| == |right|
      && forall i :: 0 <= i < |left| ==>
           && left[i].verb == right[i].verb && left[i].status == right[i].status
           && SameBody(k, left[i].body, right[i].body)
           && forall h :: h in o.headers ==> HeaderValues(k, left[i], h) == HeaderValues(k, right[i], h)
  {
    hide Matches;
    forall rho, a, b ensures BodyMatches(o, k, rho, a, b) <==> SameBody(k, a, b) {
      if Decoded(k, a, b) { ExactMatchIff(o, rho, BodyPair(k, a, b)); }
    }
    var none: Renaming := map[];
    assert Injective(none);
    if Equivalent(o, k, left, right) {
      var rho: Renaming :| Explains(o, k, rho, left, right);
      forall i | 0 <= i < |left| ensures SameBody(k, left[i].body, right[i].body) {
        assert BodyMatches(o, k, rho, left[i].body, right[i].body);
      }
    } else if |left| == |right| {
      assert !Explains(o, k, none, left, right);
    }
  }
}
