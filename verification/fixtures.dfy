/**
  The registries the registry tests build, and what the tests assert about
  registry sets and about overriding endpoints in a derived registry.
 */
module RegistryFixtures {
  import opened Wrappers
  import opened Dict
  import opened Const
  import opened Endpoints
  import opened Registry
  import opened Registries
  import opened RegistrySets

  const Endpoint1 := Number("test_endpoint_1", Celsius, "S_TEST_1")
  const Endpoint2 := Number("test_endpoint_2", Celsius, "S_TEST_2")
  const Endpoint3 := Number("test_endpoint_3", Celsius, "S_TEST_3")
  const EndpointConflict := Number("test_endpoint_conflict", Percent, "S_TEST_1")
  const Endpoint1Override := Number("test_endpoint_1_override", Percent, "S_TEST_1_OVERRIDE")
  const Endpoint4 := Number("test_endpoint_4", Celsius, "S_TEST_4")

  const Member1 := Member("ENDPOINT_1", EndpointValue(Endpoint1))
  const Member2 := Member("ENDPOINT_2", EndpointValue(Endpoint2))
  const Member3 := Member("ENDPOINT_3", EndpointValue(Endpoint3))
  const MemberConflict := Member("ENDPOINT_CONFLICT", EndpointValue(EndpointConflict))
  const Member1Override := Member("ENDPOINT_1", EndpointValue(Endpoint1Override))
  const Member4 := Member("ENDPOINT_4", EndpointValue(Endpoint4))
  /** A class docstring is an attribute of the class too, but not an endpoint. */
  const DocString := Member("__doc__", OtherValue)

  function TestRegistryA(): Registry {
    Registry("TestRegistryA", [Member1, Member2], None)
  }

  function TestRegistryB(): Registry {
    Registry("TestRegistryB", [Member3], None)
  }

  function TestRegistryConflicting(): Registry {
    Registry("TestRegistryConflicting", [DocString, MemberConflict], None)
  }

  /** Derives from A, overrides `ENDPOINT_1` and adds `ENDPOINT_4`. */
  function TestRegistryChild(): Registry {
    Registry("TestRegistryChild", [DocString, Member1Override, Member4], Some(TestRegistryA()))
  }

  lemma TestRegistriesIterate()
    ensures IterateEndpoints(TestRegistryA()) == [Endpoint1, Endpoint2]
    ensures IterateEndpoints(TestRegistryB()) == [Endpoint3]
  {
    AllEndpointMembers([Member1, Member2]);
    AllEndpointMembers([Member3]);
  }

  function SetAB(): seq<Registry> {
    [TestRegistryA(), TestRegistryB()]
  }

  lemma SetABEndpoints()
    ensures AllEndpoints(SetAB()) == [Endpoint1, Endpoint2, Endpoint3]
  {
    TestRegistriesIterate();
    AllEndpointsPair(TestRegistryA(), TestRegistryB());
  }

  /** A and B together make a set of three endpoints, found by their sensor ids. */
  lemma SetOfTwoTestRegistries()
    ensures NewRegistrySet(SetAB()).Ok?
    ensures EndpointsIn(RegistrySet(SetAB())) == [Endpoint1, Endpoint2, Endpoint3]
    ensures SensorIdsIn(RegistrySet(SetAB())) == ["S_TEST_1", "S_TEST_2", "S_TEST_3"]
    ensures GetEndpoint(RegistrySet(SetAB()), "S_TEST_1") == Some(Endpoint1)
  {
    SetABViews();
    SetABAccepted();
    LookupInverts([Endpoint1, Endpoint2, Endpoint3], 0);
  }

  lemma SetABViews()
    ensures EndpointsIn(RegistrySet(SetAB())) == [Endpoint1, Endpoint2, Endpoint3]
    ensures SensorIdsIn(RegistrySet(SetAB())) == SensorIds([Endpoint1, Endpoint2, Endpoint3])
    ensures SensorIds([Endpoint1, Endpoint2, Endpoint3]) == ["S_TEST_1", "S_TEST_2", "S_TEST_3"]
    ensures forall id :: GetEndpoint(RegistrySet(SetAB()), id) == Lookup([Endpoint1, Endpoint2, Endpoint3], id)
  {
    var eps := [Endpoint1, Endpoint2, Endpoint3];
    SetABEndpoints();
    ViewsOf(SetAB(), eps);
    assert SensorIds(eps) == ["S_TEST_1", "S_TEST_2", "S_TEST_3"];
  }

  lemma SetABAccepted()
    ensures NewRegistrySet(SetAB()).Ok?
  {
    SetABEndpoints();
    TestIdsDistinct();
    assert TestRegistryA() != TestRegistryB() by {
      assert TestRegistryA().name != TestRegistryB().name;
    }
    AcceptedOf(SetAB(), [Endpoint1, Endpoint2, Endpoint3]);
  }

  lemma TestIdsDistinct()
    ensures Distinct(SensorIds([Endpoint1, Endpoint2, Endpoint3]))
  {
    assert SensorIds([Endpoint1, Endpoint2, Endpoint3]) == ["S_TEST_1", "S_TEST_2", "S_TEST_3"];
  }

  /** A registry and one whose endpoint reuses the sensor id `S_TEST_1` are refused, naming that id. */
  lemma ConflictingTestRegistriesRefused()
    ensures NewRegistrySet([TestRegistryA(), TestRegistryConflicting()]).Err?
    ensures NewRegistrySet([TestRegistryA(), TestRegistryConflicting()]).error.ConflictingEndpointIds?
    ensures "S_TEST_1" in NewRegistrySet([TestRegistryA(), TestRegistryConflicting()]).error.ids
  {
    TestRegistriesIterate();
    NonEndpointIgnored([], "__doc__", [MemberConflict]);
    assert [DocString, MemberConflict] == [] + [DocString] + [MemberConflict];
    AllEndpointMembers([MemberConflict]);
    assert IterateEndpoints(TestRegistryConflicting()) == [EndpointConflict];
    assert SensorIds([Endpoint1, Endpoint2])[0] == "S_TEST_1";
    assert SensorIds([EndpointConflict])[0] == "S_TEST_1";
    PairConflicts(TestRegistryA(), TestRegistryConflicting(), "S_TEST_1");
  }

  /** Lookup of a sensor id no endpoint has finds nothing. */
  lemma UnknownIdNotFound()
    ensures NewRegistrySet([TestRegistryA()]).Ok?
    ensures GetEndpoint(RegistrySet([TestRegistryA()]), "UNKNOWN_ID") == None
  {
    var eps := [Endpoint1, Endpoint2];
    TestRegistriesIterate();
    assert SensorIds(eps) == ["S_TEST_1", "S_TEST_2"];
    SingleViews(TestRegistryA(), eps);
  }

  lemma ChildOwnEndpoints()
    ensures EndpointMembers(TestRegistryChild().own) == [Member1Override, Member4]
  {
    NonEndpointIgnored([], "__doc__", [Member1Override, Member4]);
    assert [DocString, Member1Override, Member4] == [] + [DocString] + [Member1Override, Member4];
    AllEndpointMembers([Member1Override, Member4]);
  }

  lemma ChildResolves()
    ensures Resolve([Member1, Member2], [Member1Override, Member4]) == [Member1Override, Member2, Member4]
  {
    var own := [Member1Override, Member4];
    assert Attrs([Member1, Member2]) == ["ENDPOINT_1", "ENDPOINT_2"];
    assert Additions([Member1, Member2], own) == [Member4];
    assert Override(Member1, own) == Member1Override;
    assert Override(Member2, own) == Member2;
  }

  /** The child's iteration: its `ENDPOINT_1` where the parent's stood, the inherited `ENDPOINT_2`, then `ENDPOINT_4`. */
  lemma ChildIteration()
    ensures IterateEndpoints(TestRegistryChild()) == [Endpoint1Override, Endpoint2, Endpoint4]
  {
    var ms := [Member1Override, Member2, Member4];
    ChildResolvedMembers();
    IterateOf(TestRegistryChild(), ms);
    EndpointsOfThree(Member1Override, Member2, Member4);
  }

  lemma ChildResolvedMembers()
    ensures ResolvedMembers(TestRegistryChild()) == [Member1Override, Member2, Member4]
  {
    ChildOwnEndpoints();
    ParentResolvedMembers();
    ChildResolves();
    ResolvedOfDerived(TestRegistryChild(), [Member1, Member2], [Member1Override, Member4]);
  }

  lemma ParentResolvedMembers()
    ensures ResolvedMembers(TestRegistryA()) == [Member1, Member2]
  {
    AllEndpointMembers([Member1, Member2]);
  }

  /** The child keeps the endpoint it inherits without rebinding and adds its own. */
  lemma ChildKeepsInherited()
    ensures Endpoint2 in IterateEndpoints(TestRegistryChild()) && Endpoint4 in IterateEndpoints(TestRegistryChild())
  {
    ChildIteration();
  }

  /** The child's `ENDPOINT_1` replaces the parent's. */
  lemma ChildOverridesParent()
    ensures Endpoint1Override in IterateEndpoints(TestRegistryChild())
    ensures Endpoint1 !in IterateEndpoints(TestRegistryChild())
  {
    ChildIteration();
  }

  /** The one endpoint of the child named `test_endpoint_1_override` carries the new sensor id. */
  lemma ChildOverrideSensorId()
    ensures |IterateEndpoints(TestRegistryChild())| == 3
    ensures IterateEndpoints(TestRegistryChild())[0].name == "test_endpoint_1_override"
    ensures IterateEndpoints(TestRegistryChild())[0].sensorId == "S_TEST_1_OVERRIDE"
    ensures IterateEndpoints(TestRegistryChild())[1].name != "test_endpoint_1_override"
    ensures IterateEndpoints(TestRegistryChild())[2].name != "test_endpoint_1_override"
  {
    ChildIteration();
  }

  /** The system registry alone makes a set, and the set has endpoints. */
  lemma SystemAloneAccepted()
    ensures NewRegistrySet([SystemEndpointsRegistry()]).Ok?
    ensures |EndpointsIn(RegistrySet([SystemEndpointsRegistry()]))| > 0
  {
    SystemEndpointsSound();
    SingleAccepted(SystemEndpointsRegistry());
    DeclaredIterates("SystemEndpoints", SystemNames(), SystemTable());
  }

  /** Listing the system registry twice is refused. */
  lemma SystemTwiceRefused()
    ensures NewRegistrySet([SystemEndpointsRegistry(), SystemEndpointsRegistry()]) == Err(DuplicateRegistry)
  {
    RepeatedRefused([SystemEndpointsRegistry(), SystemEndpointsRegistry()], 0, 1);
  }

  /** The system and L1 registries make a set holding the outside temperature and the L1 operation mode. */
  lemma SystemAndL1Accepted()
    ensures NewRegistrySet([SystemEndpointsRegistry(), L1EndpointsRegistry()]).Ok?
    ensures SystemEndpoint(2) in EndpointsIn(RegistrySet([SystemEndpointsRegistry(), L1EndpointsRegistry()]))
    ensures L1OperationMode in EndpointsIn(RegistrySet([SystemEndpointsRegistry(), L1EndpointsRegistry()]))
  {
    var s, l1 := SystemEndpointsRegistry(), L1EndpointsRegistry();
    SystemEndpointsSound();
    L1EndpointsSound();
    ConcreteRegistriesDisjoint();
    PairAccepted(s, l1);
    AllEndpointsPair(s, l1);
    DeclaredIterates("SystemEndpoints", SystemNames(), SystemTable());
    DeclaredIterates("L1Endpoints", L1Names(), L1Table());
    assert SystemTable()[2] == SystemEndpoint(2);
    assert L1Table()[0] == L1OperationMode;
    assert IterateEndpoints(s)[2] in IterateEndpoints(s) + IterateEndpoints(l1);
    assert IterateEndpoints(l1)[0] in IterateEndpoints(s) + IterateEndpoints(l1);
  }

  /** The L1 and L2 registries make a set. */
  lemma L1AndL2Accepted()
    ensures NewRegistrySet([L1EndpointsRegistry(), L2EndpointsRegistry()]).Ok?
  {
    L1EndpointsSound();
    L2EndpointsSound();
    ConcreteRegistriesDisjoint();
    PairAccepted(L1EndpointsRegistry(), L2EndpointsRegistry());
  }

  /**
    The room-sensor variants derive from L1 and L2 and rebind the room
    temperature fine-tuning control to the id read through the room sensor.
   */
  const L1FineTuningViaRoomSensor :=
    FloatControl("l1_room_temperature_fine_tuning", Celsius, "S_102_85", "@_S_102_85", -4.0, 4.0)
  const L2FineTuningViaRoomSensor :=
    FloatControl("l2_room_temperature_fine_tuning", Celsius, "S_189_85", "@_S_189_85", -4.0, 4.0)

  function L1EndpointsWithRoomSensor(): Registry {
    Registry("L1EndpointsWithRoomSensor",
      [Member("ROOM_TEMPERATURE_FINE_TUNING", EndpointValue(L1FineTuningViaRoomSensor))],
      Some(L1EndpointsRegistry()))
  }

  function L2EndpointsWithRoomSensor(): Registry {
    Registry("L2EndpointsWithRoomSensor",
      [Member("ROOM_TEMPERATURE_FINE_TUNING", EndpointValue(L2FineTuningViaRoomSensor))],
      Some(L2EndpointsRegistry()))
  }

  /** The tenth L1 name is the fine-tuning control's. */
  lemma L1FineTuningName()
    ensures 9 < |L1Names()| && L1Names()[9] == "ROOM_TEMPERATURE_FINE_TUNING"
  {
  }

  /** The L1 variant iterates the L1 table with the fine-tuning control replaced in place. */
  lemma L1RoomVariantIteration()
    ensures |IterateEndpoints(L1EndpointsWithRoomSensor())| == L1Count
    ensures forall i :: 0 <= i < L1Count ==>
      IterateEndpoints(L1EndpointsWithRoomSensor())[i] == if i == 9 then L1FineTuningViaRoomSensor else L1Endpoint(i)
  {
    L1RoomVariantTable();
  }

  lemma L1RoomVariantTable()
    ensures IterateEndpoints(L1EndpointsWithRoomSensor()) == L1Table()[9 := L1FineTuningViaRoomSensor]
  {
    L1TableFacts();
    L1FineTuningName();
    OverrideDeclared("L1Endpoints", L1Names(), L1Table(), "L1EndpointsWithRoomSensor",
      Member("ROOM_TEMPERATURE_FINE_TUNING", EndpointValue(L1FineTuningViaRoomSensor)), 9);
  }

  /** The tenth L2 name is the fine-tuning control's. */
  lemma L2FineTuningName()
    ensures 9 < |L2Names()| && L2Names()[9] == "ROOM_TEMPERATURE_FINE_TUNING"
  {
  }

  /** The L2 variant iterates the L2 table with the fine-tuning control replaced in place. */
  lemma L2RoomVariantIteration()
    ensures |IterateEndpoints(L2EndpointsWithRoomSensor())| == L2Count
    ensures forall i :: 0 <= i < L2Count ==>
      IterateEndpoints(L2EndpointsWithRoomSensor())[i] == if i == 9 then L2FineTuningViaRoomSensor else L2Endpoint(i)
  {
    L2RoomVariantTable();
  }

  lemma L2RoomVariantTable()
    ensures IterateEndpoints(L2EndpointsWithRoomSensor()) == L2Table()[9 := L2FineTuningViaRoomSensor]
  {
    L2TableFacts();
    L2FineTuningName();
    OverrideDeclared("L2Endpoints", L2Names(), L2Table(), "L2EndpointsWithRoomSensor",
      Member("ROOM_TEMPERATURE_FINE_TUNING", EndpointValue(L2FineTuningViaRoomSensor)), 9);
  }

  /** The shape `L1RoomVariantIteration` establishes: the L1 table with the fine-tuning control replaced. */
  predicate L1VariantShape(eps: seq<Endpoint>) {
    && |eps| == L1Count
    && forall i :: 0 <= i < L1Count ==> eps[i] == if i == 9 then L1FineTuningViaRoomSensor else L1Endpoint(i)
  }

  /** The names of a sequence of endpoints, in order. */
  function Names(eps: seq<Endpoint>): (names: seq<string>)
    ensures |names| == |eps|
    ensures forall i :: 0 <= i < |eps| ==> names[i] == eps[i].name
  {
    seq(|eps|, i requires 0 <= i < |eps| => eps[i].name)
  }

  lemma VariantShapeFineTuning(eps: seq<Endpoint>)
    requires L1VariantShape(eps)
    ensures eps[9] == L1FineTuningViaRoomSensor
    ensures forall i :: 0 <= i < |eps| && eps[i].name == "l1_room_temperature_fine_tuning" ==> i == 9
  {
    FineTuningNamedOnce();
  }

  lemma VariantShapeReadings(eps: seq<Endpoint>)
    requires L1VariantShape(eps)
    ensures "l1_room_temperature" in Names(eps)
    ensures "l1_room_temperature_setpoint" in Names(eps)
    ensures "l1_room_sensor_potentiometer" in Names(eps)
  {
    assert Names(eps)[15] == L1Endpoint(15).name;
    assert Names(eps)[18] == L1Endpoint(18).name;
    assert Names(eps)[19] == L1Endpoint(19).name;
  }

  /**
    The L1 variant has exactly one endpoint named
    `l1_room_temperature_fine_tuning`: the variant's own, read from `S_102_85`,
    which is not the L1 registry's.
   */
  lemma L1RoomVariantFineTuning()
    ensures |IterateEndpoints(L1EndpointsWithRoomSensor())| == L1Count
    ensures IterateEndpoints(L1EndpointsWithRoomSensor())[9] == L1FineTuningViaRoomSensor
    ensures forall i :: 0 <= i < L1Count && IterateEndpoints(L1EndpointsWithRoomSensor())[i].name == "l1_room_temperature_fine_tuning" ==> i == 9
    ensures L1FineTuningViaRoomSensor.sensorId == "S_102_85"
    ensures L1FineTuningViaRoomSensor != L1RoomTemperatureFineTuning
  {
    L1RoomVariantIteration();
    VariantShapeFineTuning(IterateEndpoints(L1EndpointsWithRoomSensor()));
  }

  /** The L1 variant keeps the room temperature, its setpoint and the room sensor potentiometer. */
  lemma L1RoomVariantReadings()
    ensures "l1_room_temperature" in Names(IterateEndpoints(L1EndpointsWithRoomSensor()))
    ensures "l1_room_temperature_setpoint" in Names(IterateEndpoints(L1EndpointsWithRoomSensor()))
    ensures "l1_room_sensor_potentiometer" in Names(IterateEndpoints(L1EndpointsWithRoomSensor()))
  {
    L1RoomVariantIteration();
    VariantShapeReadings(IterateEndpoints(L1EndpointsWithRoomSensor()));
  }

  /**
    As reconstructed, each variant reads one id twice: the overriding
    fine-tuning control reads the id of the fine-tuning-with-sensor control
    it inherits (`S_102_85` for L1, `S_189_85` for L2). So neither variant is
    sound, and every registry set that lists one is refused.
   */
  lemma L1RoomVariantRepeatsId()
    ensures "S_102_85" in Duplicates(SensorIds(IterateEndpoints(L1EndpointsWithRoomSensor())))
    ensures !Sound(L1EndpointsWithRoomSensor())
  {
    L1TableRepeats();
    L1RoomVariantTable();
  }

  lemma L1TableRepeats()
    ensures "S_102_85" in Duplicates(SensorIds(L1Table()[9 := L1FineTuningViaRoomSensor]))
  {
    assert L1Table()[10] == L1Endpoint(10);
    ReadTwice(L1Table()[9 := L1FineTuningViaRoomSensor], 9, 10);
  }

  lemma L2RoomVariantRepeatsId()
    ensures "S_189_85" in Duplicates(SensorIds(IterateEndpoints(L2EndpointsWithRoomSensor())))
    ensures !Sound(L2EndpointsWithRoomSensor())
  {
    assert L2Table()[10] == L2Endpoint(10);
    ReadTwice(L2Table()[9 := L2FineTuningViaRoomSensor], 9, 10);
    L2RoomVariantTable();
  }

  /** Two endpoints reading the same id make that id a duplicate. */
  lemma ReadTwice(eps: seq<Endpoint>, i: int, j: int)
    requires 0 <= i < j < |eps| && eps[i].sensorId == eps[j].sensorId
    ensures eps[i].sensorId in Duplicates(SensorIds(eps))
    ensures !Distinct(SensorIds(eps))
  {
    assert SensorIds(eps)[i] == SensorIds(eps)[j];
  }

  /** Every registry set listing a room-sensor variant is refused, the system registry with one included. */
  lemma RoomVariantSetsRefused(before: seq<Registry>, after: seq<Registry>)
    ensures NewRegistrySet(before + [L1EndpointsWithRoomSensor()] + after).Err?
    ensures NewRegistrySet(before + [L2EndpointsWithRoomSensor()] + after).Err?
    ensures NewRegistrySet([SystemEndpointsRegistry(), L1EndpointsWithRoomSensor()]).Err?
  {
    L1RoomVariantRepeatsId();
    L2RoomVariantRepeatsId();
    RepeatingRegistryAmong(before, L1EndpointsWithRoomSensor(), after);
    RepeatingRegistryAmong(before, L2EndpointsWithRoomSensor(), after);
    RepeatingRegistryRefused([SystemEndpointsRegistry(), L1EndpointsWithRoomSensor()], 1);
  }

  /** A registry set of L1 and its room-sensor variant is refused: they share, for one, the operation mode's id. */
  lemma L1AndRoomVariantRefused()
    ensures NewRegistrySet([L1EndpointsRegistry(), L1EndpointsWithRoomSensor()]).Err?
    ensures NewRegistrySet([L1EndpointsRegistry(), L1EndpointsWithRoomSensor()]).error.ConflictingEndpointIds?
  {
    var b, v := L1EndpointsRegistry(), L1EndpointsWithRoomSensor();
    L1RoomVariantIteration();
    DeclaredIterates("L1Endpoints", L1Names(), L1Table());
    assert SensorIds(IterateEndpoints(b))[0] == "S_59_85";
    assert SensorIds(IterateEndpoints(v))[0] == "S_59_85";
    PairConflicts(b, v, "S_59_85");
  }

  /** Likewise for L2 and its room-sensor variant. */
  lemma L2AndRoomVariantRefused()
    ensures NewRegistrySet([L2EndpointsRegistry(), L2EndpointsWithRoomSensor()]).Err?
    ensures NewRegistrySet([L2EndpointsRegistry(), L2EndpointsWithRoomSensor()]).error.ConflictingEndpointIds?
  {
    var b, v := L2EndpointsRegistry(), L2EndpointsWithRoomSensor();
    L2RoomVariantIteration();
    DeclaredIterates("L2Endpoints", L2Names(), L2Table());
    assert SensorIds(IterateEndpoints(b))[0] == "S_146_85";
    assert SensorIds(IterateEndpoints(v))[0] == "S_146_85";
    PairConflicts(b, v, "S_146_85");
  }
}
