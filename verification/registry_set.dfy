/**
  A registry set: the registries a client reads and writes, checked once when
  the set is built so that every sensor id names exactly one endpoint.
 */
module RegistrySets {
  import opened Wrappers
  import opened Dict
  import opened Endpoints
  import opened Registry
  import opened Registries

  /** Why a list of registries does not make a set. */
  datatype SetError =
    | DuplicateRegistry
    | ConflictingEndpointIds(ids: set<string>)

  datatype RegistrySet = RegistrySet(registries: seq<Registry>)

  /** The endpoints of every registry, registry by registry, each in its iteration order. */
  function AllEndpoints(regs: seq<Registry>): (eps: seq<Endpoint>)
    ensures forall e :: e in eps <==> exists k :: 0 <= k < |regs| && e in IterateEndpoints(regs[k])
  {
    if |regs| == 0 then []
    else
      var rest := AllEndpoints(regs[1..]);
      assert forall e :: e in IterateEndpoints(regs[0]) + rest <==>
          exists k :: 0 <= k < |regs| && e in IterateEndpoints(regs[k]) by {
        forall e ensures e in IterateEndpoints(regs[0]) + rest <==>
            exists k :: 0 <= k < |regs| && e in IterateEndpoints(regs[k]) {
          UnionStep(regs, e);
        }
      }
      IterateEndpoints(regs[0]) + rest
  }

  /** Registry `k` of the whole list is the first registry or registry `k - 1` of the rest. */
  lemma UnionStep(regs: seq<Registry>, e: Endpoint)
    requires |regs| > 0
    ensures (exists k :: 0 <= k < |regs| && e in IterateEndpoints(regs[k])) <==>
      e in IterateEndpoints(regs[0]) || exists k :: 0 <= k < |regs[1..]| && e in IterateEndpoints(regs[1..][k])
  {
    if k :| 0 <= k < |regs[1..]| && e in IterateEndpoints(regs[1..][k]) {
      assert regs[k + 1] == regs[1..][k];
    }
    if k :| 0 <= k < |regs| && e in IterateEndpoints(regs[k]) {
      if k > 0 {
        assert regs[1..][k - 1] == regs[k];
      }
    }
  }

  /** The sensor ids that occur more than once. */
  function Duplicates(ids: seq<string>): (dups: set<string>)
    ensures dups == {} <==> Distinct(ids)
    ensures forall id :: id in dups <==> exists i, j :: 0 <= i < j < |ids| && ids[i] == id && ids[j] == id
  {
    var dups := set id | id in ids && exists i, j :: 0 <= i < j < |ids| && ids[i] == id && ids[j] == id;
    assert !Distinct(ids) ==> dups != {} by {
      if !Distinct(ids) {
        var i, j :| 0 <= i < j < |ids| && ids[i] == ids[j];
        assert ids[i] in dups;
      }
    }
    dups
  }

  /**
    Building a set: the same registry twice is refused first; then every
    sensor id that two endpoints share is reported.
   */
  function NewRegistrySet(regs: seq<Registry>): (r: Result<RegistrySet, SetError>)
    ensures r == Err(DuplicateRegistry) <==> !Distinct(regs)
    ensures r.Ok? <==> Distinct(regs) && Distinct(SensorIds(AllEndpoints(regs)))
    ensures r.Ok? ==> r.value.registries == regs
    ensures r.Err? && r.error.ConflictingEndpointIds? ==>
      forall id :: id in r.error.ids <==> exists i, j ::
        0 <= i < j < |AllEndpoints(regs)| && SensorIds(AllEndpoints(regs))[i] == id && SensorIds(AllEndpoints(regs))[j] == id
  {
    if !Distinct(regs) then Err(DuplicateRegistry)
    else
      var dups := Duplicates(SensorIds(AllEndpoints(regs)));
      if dups != {} then Err(ConflictingEndpointIds(dups)) else Ok(RegistrySet(regs))
  }

  /** The `endpoints` view: every endpoint of every registry of the set. */
  function EndpointsIn(s: RegistrySet): (eps: seq<Endpoint>)
    ensures forall e :: e in eps <==> exists k :: 0 <= k < |s.registries| && e in IterateEndpoints(s.registries[k])
  {
    AllEndpoints(s.registries)
  }

  /** The `sensor_endpoint_ids` view: the sensor id of each endpoint of the set, in the same order. */
  function SensorIdsIn(s: RegistrySet): (ids: seq<string>)
    ensures |ids| == |EndpointsIn(s)|
    ensures forall i :: 0 <= i < |ids| ==> ids[i] == EndpointsIn(s)[i].sensorId
  {
    SensorIds(EndpointsIn(s))
  }

  /** `get_endpoint_by_sensor_id` on a set: an endpoint of the set reading `id`, or nothing when none does. */
  function GetEndpoint(s: RegistrySet, id: string): (r: Option<Endpoint>)
    ensures r.Some? ==> r.value in EndpointsIn(s) && r.value.sensorId == id
    ensures r.None? <==> id !in SensorIdsIn(s)
  {
    Lookup(EndpointsIn(s), id)
  }

  /** Distinct registries contributing endpoints with distinct ids make a set. */
  lemma AcceptedOf(regs: seq<Registry>, eps: seq<Endpoint>)
    requires Distinct(regs) && AllEndpoints(regs) == eps && Distinct(SensorIds(eps))
    ensures NewRegistrySet(regs).Ok?
  {
  }

  /** The views of a set whose registries contribute `eps`. */
  lemma ViewsOf(regs: seq<Registry>, eps: seq<Endpoint>)
    requires AllEndpoints(regs) == eps
    ensures EndpointsIn(RegistrySet(regs)) == eps
    ensures SensorIdsIn(RegistrySet(regs)) == SensorIds(eps)
    ensures forall id :: GetEndpoint(RegistrySet(regs), id) == Lookup(eps, id)
  {
  }

  /** A one-registry set whose registry iterates `eps` with distinct ids: accepted, and looked up through `eps`. */
  lemma SingleViews(r: Registry, eps: seq<Endpoint>)
    requires IterateEndpoints(r) == eps && Distinct(SensorIds(eps))
    ensures NewRegistrySet([r]).Ok?
    ensures forall id :: GetEndpoint(RegistrySet([r]), id) == Lookup(eps, id)
  {
    assert AllEndpoints([r]) == eps + [];
    AcceptedOf([r], eps);
    ViewsOf([r], eps);
  }

  lemma AllEndpointsPair(a: Registry, b: Registry)
    ensures AllEndpoints([a, b]) == IterateEndpoints(a) + IterateEndpoints(b)
  {
    assert [a, b][1..] == [b];
    assert [b][1..] == [];
    assert AllEndpoints([b]) == IterateEndpoints(b) + [];
  }

  /** The set holds as many endpoints as its registries together. */
  lemma {:induction false} AllEndpointsSize(regs: seq<Registry>)
    ensures |AllEndpoints(regs)| == TotalSize(regs)
  {
    if |regs| > 0 {
      AllEndpointsSize(regs[1..]);
    }
  }

  function TotalSize(regs: seq<Registry>): nat {
    if |regs| == 0 then 0 else |IterateEndpoints(regs[0])| + TotalSize(regs[1..])
  }

  /** In an accepted set, lookup by sensor id finds every endpoint of every registry. */
  lemma AcceptedLookup(regs: seq<Registry>, e: Endpoint)
    requires NewRegistrySet(regs).Ok?
    requires e in AllEndpoints(regs)
    ensures GetEndpoint(NewRegistrySet(regs).value, e.sensorId) == Some(e)
  {
    var eps := AllEndpoints(regs);
    var i :| 0 <= i < |eps| && eps[i] == e;
    LookupInverts(eps, i);
  }

  lemma SensorIdsAppend(a: seq<Endpoint>, b: seq<Endpoint>)
    ensures SensorIds(a + b) == SensorIds(a) + SensorIds(b)
  {
  }

  /**
    Two distinct registries that are each sound and share no sensor id make a
    set; two registries that share a sensor id are refused and the shared id
    is reported.
   */
  lemma PairAccepted(a: Registry, b: Registry)
    requires a != b && Sound(a) && Sound(b) && Registries.Disjoint(a, b)
    ensures NewRegistrySet([a, b]).Ok?
  {
    var ea, eb := IterateEndpoints(a), IterateEndpoints(b);
    AllEndpointsPair(a, b);
    SensorIdsAppend(ea, eb);
    var ids := SensorIds(ea) + SensorIds(eb);
    forall i, j | 0 <= i < j < |ids| ensures ids[i] != ids[j] {
      if j >= |ea| && i < |ea| {
        assert ids[i] in SensorIds(ea);
      }
    }
  }

  /** An id read by an endpoint of each half occurs twice in the joined ids. */
  lemma SharedIdRepeats(ea: seq<Endpoint>, eb: seq<Endpoint>, id: string)
    requires id in SensorIds(ea) && id in SensorIds(eb)
    ensures id in Duplicates(SensorIds(ea + eb))
  {
    var i :| 0 <= i < |ea| && SensorIds(ea)[i] == id;
    var j :| 0 <= j < |eb| && SensorIds(eb)[j] == id;
    SensorIdsAppend(ea, eb);
    var ids := SensorIds(ea + eb);
    assert ids[i] == id && ids[|ea| + j] == id;
  }

  lemma PairConflicts(a: Registry, b: Registry, id: string)
    requires a != b
    requires id in SensorIds(IterateEndpoints(a)) && id in SensorIds(IterateEndpoints(b))
    ensures NewRegistrySet([a, b]).Err?
    ensures NewRegistrySet([a, b]).error.ConflictingEndpointIds?
    ensures id in NewRegistrySet([a, b]).error.ids
  {
    AllEndpointsPair(a, b);
    SharedIdRepeats(IterateEndpoints(a), IterateEndpoints(b), id);
    assert Distinct([a, b]);
  }

  /** A sound registry alone makes a set holding exactly its endpoints. */
  lemma SingleAccepted(r: Registry)
    requires Sound(r)
    ensures NewRegistrySet([r]).Ok?
    ensures AllEndpoints([r]) == IterateEndpoints(r)
  {
    assert AllEndpoints([r]) == IterateEndpoints(r) + [];
    assert Distinct([r]);
    assert Distinct(SensorIds(AllEndpoints([r])));
  }

  /** The endpoints of the set are those before registry `k`, then its own, then those after it. */
  lemma {:induction false} AllEndpointsAround(regs: seq<Registry>, k: int) returns (before: seq<Endpoint>, after: seq<Endpoint>)
    requires 0 <= k < |regs|
    ensures AllEndpoints(regs) == before + IterateEndpoints(regs[k]) + after
  {
    var head, rest := IterateEndpoints(regs[0]), AllEndpoints(regs[1..]);
    assert AllEndpoints(regs) == head + rest;
    if k == 0 {
      before, after := [], rest;
      assert head + rest == before + head + after;
    } else {
      var b, a := AllEndpointsAround(regs[1..], k - 1);
      var mid := IterateEndpoints(regs[k]);
      assert regs[1..][k - 1] == regs[k];
      assert rest == b + mid + a;
      before, after := head + b, a;
      assert head + (b + mid + a) == (head + b) + mid + a;
    }
  }

  /**
    A registry that reads some sensor id twice spoils every set it is listed
    in: building the set fails, whatever the other registries are.
   */
  lemma RepeatingRegistryRefused(regs: seq<Registry>, k: int)
    requires 0 <= k < |regs| && !Distinct(SensorIds(IterateEndpoints(regs[k])))
    ensures NewRegistrySet(regs).Err?
  {
    var before, after := AllEndpointsAround(regs, k);
    RepeatInside(before, IterateEndpoints(regs[k]), after);
  }

  /** The same, with the repeating registry placed between any others. */
  lemma RepeatingRegistryAmong(before: seq<Registry>, r: Registry, after: seq<Registry>)
    requires !Distinct(SensorIds(IterateEndpoints(r)))
    ensures NewRegistrySet(before + [r] + after).Err?
  {
    var regs := before + [r] + after;
    assert regs[|before|] == r;
    RepeatingRegistryRefused(regs, |before|);
  }

  /** An id read twice within a stretch of endpoints is read twice in the whole. */
  lemma RepeatInside(before: seq<Endpoint>, mid: seq<Endpoint>, after: seq<Endpoint>)
    requires !Distinct(SensorIds(mid))
    ensures !Distinct(SensorIds(before + mid + after))
  {
    var i, j :| 0 <= i < j < |mid| && SensorIds(mid)[i] == SensorIds(mid)[j];
    var all := before + mid + after;
    assert all[|before| + i] == mid[i] && all[|before| + j] == mid[j];
    assert SensorIds(all)[|before| + i] == SensorIds(all)[|before| + j];
  }

  /** The same registry listed twice is refused whatever its contents. */
  lemma RepeatedRefused(regs: seq<Registry>, i: int, j: int)
    requires 0 <= i < j < |regs| && regs[i] == regs[j]
    ensures NewRegistrySet(regs) == Err(DuplicateRegistry)
  {
  }

  /** The empty set is accepted and has no endpoints. */
  lemma EmptySet()
    ensures NewRegistrySet([]) == Ok(RegistrySet([]))
    ensures EndpointsIn(RegistrySet([])) == []
  {
  }
}
