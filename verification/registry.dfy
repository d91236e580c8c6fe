/**
  Registries: classes whose attributes declare endpoints. A registry's own
  namespace lists its attributes in declaration order; a registry derived from
  another inherits the base's endpoints and may override some of them by
  attribute name or add new ones.
 */
module Registry {
  import opened Wrappers
  import opened Dict
  import opened Endpoints

  /** The value of a class attribute: an endpoint, or anything else (a docstring, a method). */
  datatype AttrValue = EndpointValue(endpoint: Endpoint) | OtherValue

  /** One attribute of a registry class's namespace. */
  datatype Member = Member(attr: string, value: AttrValue)

  /**
    A registry class: its name, its own namespace (`__dict__`) in declaration
    order, and the registry it derives from, if any.
   */
  datatype Registry = Registry(name: string, own: seq<Member>, base: Option<Registry>)

  function Attrs(ms: seq<Member>): seq<string> {
    seq(|ms|, i requires 0 <= i < |ms| => ms[i].attr)
  }

  /** A class namespace never binds a name twice. */
  predicate WellFormed(r: Registry)
    decreases r
  {
    && Distinct(Attrs(r.own))
    && (r.base.Some? ==> WellFormed(r.base.value))
  }

  /** The endpoint-valued attributes of a namespace, in order. */
  function EndpointMembers(ms: seq<Member>): (eps: seq<Member>)
    ensures |eps| <= |ms|
    ensures forall m :: m in eps <==> m in ms && m.value.EndpointValue?
  {
    if |ms| == 0 then []
    else
      assert ms == [ms[0]] + ms[1..];
      (if ms[0].value.EndpointValue? then [ms[0]] else []) + EndpointMembers(ms[1..])
  }

  /** Filtering a concatenation filters each part. */
  lemma {:induction false} EndpointMembersAppend(a: seq<Member>, b: seq<Member>)
    ensures EndpointMembers(a + b) == EndpointMembers(a) + EndpointMembers(b)
  {
    if |a| == 0 {
      assert a + b == b;
    } else {
      assert (a + b)[0] == a[0];
      assert (a + b)[1..] == a[1..] + b;
      EndpointMembersAppend(a[1..], b);
    }
  }

  /** An attribute that is not an endpoint is passed over without disturbing the others. */
  lemma NonEndpointIgnored(before: seq<Member>, attr: string, after: seq<Member>)
    ensures EndpointMembers(before + [Member(attr, OtherValue)] + after)
         == EndpointMembers(before) + EndpointMembers(after)
  {
    EndpointMembersAppend(before + [Member(attr, OtherValue)], after);
    EndpointMembersAppend(before, [Member(attr, OtherValue)]);
  }

  /** A namespace holding only endpoints is kept whole. */
  lemma {:induction false} AllEndpointMembers(ms: seq<Member>)
    requires forall i :: 0 <= i < |ms| ==> ms[i].value.EndpointValue?
    ensures EndpointMembers(ms) == ms
  {
    if |ms| > 0 {
      AllEndpointMembers(ms[1..]);
    }
  }

  function EndpointsOf(ms: seq<Member>): seq<Endpoint>
    requires forall i :: 0 <= i < |ms| ==> ms[i].value.EndpointValue?
  {
    seq(|ms|, i requires 0 <= i < |ms| => ms[i].value.endpoint)
  }

  /**
    `_iterate`: the endpoints declared in the registry's own namespace, in
    declaration order; inherited endpoints are not seen.
   */
  function OwnEndpoints(r: Registry): (eps: seq<Endpoint>)
    ensures |eps| <= |r.own|
    ensures forall e :: e in eps <==> exists i :: 0 <= i < |r.own| && r.own[i].value == EndpointValue(e)
  {
    var ms := EndpointMembers(r.own);
    var eps := EndpointsOf(ms);
    forall e ensures e in eps <==> exists i :: 0 <= i < |r.own| && r.own[i].value == EndpointValue(e) {
      if e in eps {
        var k :| 0 <= k < |eps| && eps[k] == e;
        assert ms[k] in ms;
      }
      if i :| 0 <= i < |r.own| && r.own[i].value == EndpointValue(e) {
        assert r.own[i] in ms;
        var k :| 0 <= k < |ms| && ms[k] == r.own[i];
        assert eps[k] == e;
      }
    }
    eps
  }

  /** A registry class deriving from nothing that declares exactly the given endpoints under the given names. */
  function Declare(name: string, attrs: seq<string>, eps: seq<Endpoint>): (r: Registry)
    requires |attrs| == |eps|
    ensures r.name == name && r.base.None?
    ensures Attrs(r.own) == attrs
    ensures OwnEndpoints(r) == eps
  {
    var own := seq(|eps|, i requires 0 <= i < |eps| => Member(attrs[i], EndpointValue(eps[i])));
    AllEndpointMembers(own);
    Registry(name, own, None)
  }

  /** A declared registry iterates exactly its declared endpoints. */
  lemma DeclaredIterates(name: string, attrs: seq<string>, eps: seq<Endpoint>)
    requires |attrs| == |eps|
    ensures IterateEndpoints(Declare(name, attrs, eps)) == eps
  {
    RootIterate(Declare(name, attrs, eps));
  }

  /** `get_sensor_endpoint_ids`: the sensor id of each endpoint, in the same order. */
  function SensorIds(eps: seq<Endpoint>): (ids: seq<string>)
    ensures |ids| == |eps|
  {
    seq(|eps|, i requires 0 <= i < |eps| => eps[i].sensorId)
  }

  /** Position `i` of the projection is the sensor id of endpoint `i`. */
  lemma SensorIdsAt(eps: seq<Endpoint>)
    ensures forall i :: 0 <= i < |eps| ==> SensorIds(eps)[i] == eps[i].sensorId
  {
  }

  /** The pairs the lookup table is built from: each endpoint keyed by its sensor id. */
  function ById(eps: seq<Endpoint>): seq<(string, Endpoint)> {
    seq(|eps|, i requires 0 <= i < |eps| => (eps[i].sensorId, eps[i]))
  }

  /**
    `get_endpoint_by_sensor_id`: the endpoint read under `id`. The table is a
    dictionary comprehension, so of two endpoints with the same id the later wins.
   */
  function Lookup(eps: seq<Endpoint>, id: string): (r: Option<Endpoint>)
    ensures r.Some? ==> r.value.sensorId == id && r.value in eps
    ensures r.None? <==> id !in SensorIds(eps)
  {
    var pairs := ById(eps);
    assert Keys(pairs) == SensorIds(eps);
    var r := Get(FromPairs(pairs), id);
    GetFromPairs(pairs, id);
    LastValueIn(pairs, id);
    assert r.Some? ==> r.value in eps by {
      if r.Some? {
        var i :| 0 <= i < |pairs| && pairs[i].1 == r.value;
        assert eps[i] == r.value;
      }
    }
    r
  }

  /** The last pair with a key comes from the pairs and carries that key. */
  lemma {:induction false} LastValueIn(pairs: seq<(string, Endpoint)>, id: string)
    requires forall i :: 0 <= i < |pairs| ==> pairs[i].1.sensorId == pairs[i].0
    ensures LastValue(pairs, id).Some? ==>
      LastValue(pairs, id).value.sensorId == id && exists i :: 0 <= i < |pairs| && pairs[i].1 == LastValue(pairs, id).value
  {
    if |pairs| > 0 && pairs[|pairs| - 1].0 != id {
      LastValueIn(pairs[..|pairs| - 1], id);
    }
  }

  /** With pairwise distinct sensor ids the lookup inverts the projection: each id finds its own endpoint. */
  lemma LookupInverts(eps: seq<Endpoint>, i: int)
    requires Distinct(SensorIds(eps))
    requires 0 <= i < |eps|
    ensures Lookup(eps, eps[i].sensorId) == Some(eps[i])
  {
    var pairs := ById(eps);
    assert Keys(pairs) == SensorIds(eps);
    FromDistinctPairs(pairs);
    GetAt(pairs, i);
  }

  /** Of the endpoints sharing a sensor id, the lookup finds the one listed last. */
  lemma LaterEndpointWins(eps: seq<Endpoint>, j: int)
    requires 0 <= j < |eps|
    requires forall k :: j < k < |eps| ==> eps[k].sensorId != eps[j].sensorId
    ensures Lookup(eps, eps[j].sensorId) == Some(eps[j])
  {
    var pairs := ById(eps);
    GetFromPairs(pairs, eps[j].sensorId);
    LastValueAfter(pairs, j, eps[j].sensorId);
  }

  /** The last pair with a key is the one at `k` when no later pair has that key. */
  lemma {:induction false} LastValueAfter(pairs: seq<(string, Endpoint)>, k: int, id: string)
    requires 0 <= k < |pairs| && pairs[k].0 == id
    requires forall j :: k < j < |pairs| ==> pairs[j].0 != id
    ensures LastValue(pairs, id) == Some(pairs[k].1)
  {
    if k < |pairs| - 1 {
      LastValueAfter(pairs[..|pairs| - 1], k, id);
    }
  }

  /** The first member of a namespace binding `attr`. */
  function Find(ms: seq<Member>, attr: string): (r: Option<Member>)
    ensures r.Some? ==> r.value in ms && r.value.attr == attr
    ensures r.None? <==> attr !in Attrs(ms)
  {
    if |ms| == 0 then None
    else if ms[0].attr == attr then
      assert Attrs(ms)[0] == attr;
      Some(ms[0])
    else
      assert Attrs(ms) == [ms[0].attr] + Attrs(ms[1..]);
      Find(ms[1..], attr)
  }

  /** In a namespace binding each name once, the member binding `m.attr` is `m`. */
  lemma FindUnique(ms: seq<Member>, m: Member)
    requires Distinct(Attrs(ms))
    requires m in ms
    ensures Find(ms, m.attr) == Some(m)
  {
    var i :| 0 <= i < |ms| && ms[i] == m;
    assert Attrs(ms)[i] == m.attr;
    var f := Find(ms, m.attr).value;
    var j :| 0 <= j < |ms| && ms[j] == f;
    assert Attrs(ms)[j] == m.attr;
  }

  /** The derived registry's member standing where the base declares `m`. */
  function Override(m: Member, own: seq<Member>): (r: Member)
    ensures r.attr == m.attr
  {
    Find(own, m.attr).GetOr(m)
  }

  /** The derived registry's members under names its base does not declare, in order. */
  function Additions(base: seq<Member>, own: seq<Member>): (added: seq<Member>)
    ensures |added| <= |own|
    ensures forall m :: m in added <==> m in own && m.attr !in Attrs(base)
  {
    if |own| == 0 then []
    else
      assert own == [own[0]] + own[1..];
      (if own[0].attr !in Attrs(base) then [own[0]] else []) + Additions(base, own[1..])
  }

  /**
    The endpoints a derived registry resolves to: the base's members in the
    base's order, each replaced by the derived registry's member of the same
    name when there is one, followed by the members under new names.
   */
  function Resolve(base: seq<Member>, own: seq<Member>): (ms: seq<Member>)
    ensures |ms| == |base| + |Additions(base, own)|
  {
    seq(|base|, i requires 0 <= i < |base| => Override(base[i], own)) + Additions(base, own)
  }

  /** The names of the resolved registry: the base's, then the new ones. */
  lemma ResolveAttrs(base: seq<Member>, own: seq<Member>)
    ensures Attrs(Resolve(base, own)) == Attrs(base) + Attrs(Additions(base, own))
  {
    var r := Resolve(base, own);
    var added := Additions(base, own);
    var names := Attrs(base) + Attrs(added);
    assert |Attrs(r)| == |names|;
    forall i | 0 <= i < |r| ensures Attrs(r)[i] == names[i] {
      if i < |base| {
        assert r[i] == Override(base[i], own);
      } else {
        assert r[i] == added[i - |base|];
      }
    }
  }

  /** The members after the first bind names the first does not, each once. */
  lemma DistinctTail(ms: seq<Member>)
    requires |ms| > 0 && Distinct(Attrs(ms))
    ensures Distinct(Attrs(ms[1..]))
    ensures forall m :: m in ms[1..] ==> m.attr != ms[0].attr
  {
    var tail := ms[1..];
    forall a, b | 0 <= a < b < |tail| ensures Attrs(tail)[a] != Attrs(tail)[b] {
      assert Attrs(ms)[a + 1] != Attrs(ms)[b + 1];
    }
    forall m | m in tail ensures m.attr != ms[0].attr {
      var k :| 0 <= k < |tail| && tail[k] == m;
      assert Attrs(ms)[k + 1] != Attrs(ms)[0];
    }
  }

  /** A member binding a name the others do not can be put in front of them. */
  lemma DistinctCons(m: Member, rest: seq<Member>)
    requires Distinct(Attrs(rest))
    requires forall x :: x in rest ==> x.attr != m.attr
    ensures Distinct(Attrs([m] + rest))
  {
    var all := [m] + rest;
    forall a, b | 0 <= a < b < |all| ensures Attrs(all)[a] != Attrs(all)[b] {
      if a == 0 {
        assert all[b] in rest;
      } else {
        assert Attrs(rest)[a - 1] != Attrs(rest)[b - 1];
      }
    }
  }

  /** Filtering a namespace that binds each name once keeps each name once. */
  lemma {:induction false} AdditionsDistinct(base: seq<Member>, own: seq<Member>)
    requires Distinct(Attrs(own))
    ensures Distinct(Attrs(Additions(base, own)))
  {
    if |own| > 0 {
      DistinctTail(own);
      AdditionsDistinct(base, own[1..]);
      var rest := Additions(base, own[1..]);
      if own[0].attr !in Attrs(base) {
        assert forall x :: x in rest ==> x.attr != own[0].attr;
        DistinctCons(own[0], rest);
        assert Additions(base, own) == [own[0]] + rest;
      } else {
        assert Additions(base, own) == rest;
      }
    }
  }

  /** Resolution yields each name once (given that each namespace binds each name once). */
  lemma ResolveDistinct(base: seq<Member>, own: seq<Member>)
    requires Distinct(Attrs(base)) && Distinct(Attrs(own))
    ensures Distinct(Attrs(Resolve(base, own)))
  {
    ResolveAttrs(base, own);
    AdditionsDistinct(base, own);
    var added := Additions(base, own);
    assert forall i :: 0 <= i < |added| ==> added[i].attr !in Attrs(base) by {
      forall i | 0 <= i < |added| ensures added[i].attr !in Attrs(base) {
        assert added[i] in added;
      }
    }
    var all := Attrs(base) + Attrs(added);
    forall a, b | 0 <= a < b < |all| ensures all[a] != all[b] {
      if b >= |base| && a < |base| {
        assert all[b] == added[b - |base|].attr;
        assert all[a] == Attrs(base)[a];
      } else if a >= |base| {
        assert Attrs(added)[a - |base|] != Attrs(added)[b - |base|];
      }
    }
  }

  /**
    Override wins: a resolved member is one the derived registry declares, or
    one the base declares under a name the derived registry does not rebind.
   */
  lemma ResolveMembers(base: seq<Member>, own: seq<Member>, m: Member)
    requires Distinct(Attrs(own))
    ensures m in Resolve(base, own) <==> m in own || (m in base && m.attr !in Attrs(own))
  {
    var r := Resolve(base, own);
    if m in r {
      var i :| 0 <= i < |r| && r[i] == m;
      if i < |base| {
        assert m == Override(base[i], own);
      } else {
        assert m in Additions(base, own);
      }
    }
    if m in own {
      if m.attr in Attrs(base) {
        var i :| 0 <= i < |base| && Attrs(base)[i] == m.attr;
        FindUnique(own, m);
        assert r[i] == m;
      } else {
        assert m in Additions(base, own);
        assert r[|base| + |Additions(base, own)| - |Additions(base, own)| + IndexIn(Additions(base, own), m)] == m;
      }
    }
    if m in base && m.attr !in Attrs(own) {
      var i :| 0 <= i < |base| && base[i] == m;
      assert r[i] == m;
    }
  }

  function IndexIn<T(==)>(s: seq<T>, x: T): (i: nat)
    requires x in s
    ensures i < |s| && s[i] == x
  {
    if s[0] == x then 0 else 1 + IndexIn(s[1..], x)
  }

  /**
    A derived registry has exactly as many endpoints as its base when it only
    overrides, and strictly more when it declares a name the base lacks.
   */
  lemma ResolveSize(base: seq<Member>, own: seq<Member>)
    ensures (forall m :: m in own ==> m.attr in Attrs(base)) <==> |Resolve(base, own)| == |base|
    ensures (exists m :: m in own && m.attr !in Attrs(base)) <==> |Resolve(base, own)| > |base|
  {
    var added := Additions(base, own);
    if |added| > 0 {
      assert added[0] in added;
    }
  }

  /** Every member of the namespace is an endpoint. */
  predicate OnlyEndpoints(ms: seq<Member>) {
    forall i :: 0 <= i < |ms| ==> ms[i].value.EndpointValue?
  }

  /** Filtering keeps each name once. */
  lemma {:induction false} EndpointMembersDistinct(ms: seq<Member>)
    requires Distinct(Attrs(ms))
    ensures Distinct(Attrs(EndpointMembers(ms)))
  {
    if |ms| > 0 {
      DistinctTail(ms);
      EndpointMembersDistinct(ms[1..]);
      var rest := EndpointMembers(ms[1..]);
      if ms[0].value.EndpointValue? {
        assert forall x :: x in rest ==> x.attr != ms[0].attr;
        DistinctCons(ms[0], rest);
        assert EndpointMembers(ms) == [ms[0]] + rest;
      } else {
        assert EndpointMembers(ms) == rest;
      }
    }
  }

  /**
    The endpoint members of a registry after resolving inheritance: its own
    endpoints when it derives from nothing, otherwise its base's resolved
    members with its own endpoints overriding and extending them.
   */
  function ResolvedMembers(r: Registry): (ms: seq<Member>)
    ensures OnlyEndpoints(ms)
    decreases r
  {
    var own := EndpointMembers(r.own);
    assert OnlyEndpoints(own) by {
      forall i | 0 <= i < |own| ensures own[i].value.EndpointValue? {
        assert own[i] in own;
      }
    }
    match r.base
    case None => own
    case Some(b) =>
      var inherited := ResolvedMembers(b);
      var ms := Resolve(inherited, own);
      assert OnlyEndpoints(ms) by {
        forall i | 0 <= i < |ms| ensures ms[i].value.EndpointValue? {
          if i < |inherited| {
            assert ms[i] == Override(inherited[i], own);
            if Find(own, inherited[i].attr).Some? {
              assert Find(own, inherited[i].attr).value in own;
            }
          } else {
            assert ms[i] in Additions(inherited, own);
          }
        }
      }
      ms
  }

  /** `iterate_endpoints`: the endpoints of the resolved registry, each name once. */
  function IterateEndpoints(r: Registry): (eps: seq<Endpoint>)
    ensures r.base.None? ==> |eps| <= |r.own|
    ensures r.base.None? ==> eps == OwnEndpoints(r)
  {
    EndpointsOf(ResolvedMembers(r))
  }

  /** A derived registry resolves its own endpoint members against what its base resolves to. */
  lemma ResolvedOfDerived(r: Registry, inherited: seq<Member>, own: seq<Member>)
    requires r.base.Some? && ResolvedMembers(r.base.value) == inherited && EndpointMembers(r.own) == own
    ensures ResolvedMembers(r) == Resolve(inherited, own)
  {
  }

  /** A registry that resolves to `ms` iterates the endpoints of `ms`. */
  lemma IterateOf(r: Registry, ms: seq<Member>)
    requires ResolvedMembers(r) == ms
    ensures OnlyEndpoints(ms) && IterateEndpoints(r) == EndpointsOf(ms)
  {
  }

  /** Three endpoint members yield their three endpoints, in order. */
  lemma EndpointsOfThree(a: Member, b: Member, c: Member)
    requires a.value.EndpointValue? && b.value.EndpointValue? && c.value.EndpointValue?
    ensures EndpointsOf([a, b, c]) == [a.value.endpoint, b.value.endpoint, c.value.endpoint]
  {
  }

  /** A registry deriving from nothing iterates exactly what `_iterate` sees. */
  lemma RootIterate(r: Registry)
    requires r.base.None?
    ensures IterateEndpoints(r) == OwnEndpoints(r)
  {
  }

  /** A well-formed registry resolves each attribute name once. */
  lemma {:induction false} ResolvedNamesDistinct(r: Registry)
    requires WellFormed(r)
    ensures Distinct(Attrs(ResolvedMembers(r)))
    decreases r
  {
    EndpointMembersDistinct(r.own);
    match r.base
    case None =>
    case Some(b) =>
      ResolvedNamesDistinct(b);
      ResolveDistinct(ResolvedMembers(b), EndpointMembers(r.own));
  }

  /**
    Override resolution of a derived registry: a member survives exactly when
    the registry declares it, or its base resolves to it and the registry does
    not rebind its name to another endpoint.
   */
  lemma DerivedMembers(r: Registry, m: Member)
    requires WellFormed(r) && r.base.Some?
    ensures m in ResolvedMembers(r) <==>
      (m in r.own && m.value.EndpointValue?)
      || (m in ResolvedMembers(r.base.value) && m.attr !in Attrs(EndpointMembers(r.own)))
  {
    EndpointMembersDistinct(r.own);
    ResolveMembers(ResolvedMembers(r.base.value), EndpointMembers(r.own), m);
  }

  /** Overriding by a single member replaces exactly the member with its name. */
  lemma OverrideBySingle(x: Member, m: Member)
    ensures Override(x, [m]) == if x.attr == m.attr then m else x
  {
    assert Attrs([m]) == [m.attr];
  }

  /**
    A registry deriving from a root registry and rebinding one of its names
    to another endpoint iterates the base's endpoints in the base's order,
    with that one endpoint replaced where it stood.
   */
  lemma OverrideOne(r: Registry, k: int)
    requires r.base.Some? && r.base.value.base.None?
    requires |r.own| == 1 && r.own[0].value.EndpointValue?
    requires Distinct(Attrs(r.base.value.own))
    requires forall i :: 0 <= i < |r.base.value.own| ==> r.base.value.own[i].value.EndpointValue?
    requires 0 <= k < |r.base.value.own| && r.base.value.own[k].attr == r.own[0].attr
    ensures |IterateEndpoints(r)| == |r.base.value.own|
    ensures forall i :: 0 <= i < |r.base.value.own| ==>
      IterateEndpoints(r)[i] == if i == k then r.own[0].value.endpoint else r.base.value.own[i].value.endpoint
  {
    OverrideOneMembers(r, k);
  }

  /** The members behind `OverrideOne`: the base's members with the one rebound member in place. */
  lemma OverrideOneMembers(r: Registry, k: int)
    requires r.base.Some? && r.base.value.base.None?
    requires |r.own| == 1 && r.own[0].value.EndpointValue?
    requires Distinct(Attrs(r.base.value.own))
    requires forall i :: 0 <= i < |r.base.value.own| ==> r.base.value.own[i].value.EndpointValue?
    requires 0 <= k < |r.base.value.own| && r.base.value.own[k].attr == r.own[0].attr
    ensures |ResolvedMembers(r)| == |r.base.value.own|
    ensures forall i :: 0 <= i < |r.base.value.own| ==>
      ResolvedMembers(r)[i] == if i == k then r.own[0] else r.base.value.own[i]
  {
    var b, m := r.base.value, r.own[0];
    AllEndpointMembers(b.own);
    AllEndpointMembers(r.own);
    assert ResolvedMembers(b) == b.own;
    assert EndpointMembers(r.own) == [m];
    assert Attrs(b.own)[k] == m.attr;
    var ms := ResolvedMembers(r);
    assert ms == seq(|b.own|, i requires 0 <= i < |b.own| => Override(b.own[i], [m]));
    forall i | 0 <= i < |b.own| ensures ms[i] == (if i == k then m else b.own[i]) {
      OverrideBySingle(b.own[i], m);
      if i != k {
        assert Attrs(b.own)[i] != Attrs(b.own)[k];
      }
    }
  }

  /** `OverrideOne` for a base built by `Declare`. */
  lemma OverrideDeclared(name: string, attrs: seq<string>, eps: seq<Endpoint>, derived: string, m: Member, k: int)
    requires |attrs| == |eps|
    requires forall i, j :: 0 <= i < j < |attrs| ==> attrs[i] != attrs[j]
    requires 0 <= k < |attrs| && attrs[k] == m.attr && m.value.EndpointValue?
    ensures IterateEndpoints(Registry(derived, [m], Some(Declare(name, attrs, eps)))) == eps[k := m.value.endpoint]
  {
    var b := Declare(name, attrs, eps);
    var r := Registry(derived, [m], Some(b));
    assert Distinct(Attrs(b.own));
    OverrideOne(r, k);
  }
}
