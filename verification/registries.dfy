/**
  The three concrete registries of the controller: system-wide values, heating
  circuit L1 and heating circuit L2. Each is a table of (attribute name,
  endpoint) in declaration order; the controls reuse the descriptors the
  client writes through.
 */
module Registries {
  import opened Wrappers
  import opened Dict
  import opened Const
  import opened Endpoints
  import opened Registry

  const SystemCount := 6
  const L1Count := 21
  const L2Count := 19

  function SystemAttr(i: nat): string
    requires i < SystemCount
  {
    match i
    case 0 => "TREND_SAMPLE_INTERVAL"
    case 1 => "HOME_AWAY_MODE"
    case 2 => "OUTSIDE_TEMPERATURE"
    case 3 => "RELAY_CONFIGURATION_TYPE"
    case 4 => "RELAY_STATUS_TEXT"
    case 5 => "L2_INSTALLED_STATUS"
  }

  function SystemEndpoint(i: nat): Endpoint
    requires i < SystemCount
  {
    match i
    case 0 => TrendSampleInterval
    case 1 => HomeAwayMode
    case 2 => Number("outside_temperature", Celsius, "S_227_85")
    case 3 => Plain("relay_configuration_type", Text, "S_1002_85")
    case 4 => Plain("relay_status_text", Text, "S_1004_85")
    case 5 => Plain("l2_installed_status", Text, "S_140_85")
  }

  function L1Attr(i: nat): string
    requires i < L1Count
  {
    match i
    case 0 => "OPERATION_MODE"
    case 1 => "VALVE_POSITION_SETPOINT"
    case 2 => "CURVE_MINUS_20_TEMP"
    case 3 => "CURVE_0_TEMP"
    case 4 => "CURVE_20_TEMP"
    case 5 => "TEMPERATURE_DROP"
    case 6 => "BIG_TEMPERATURE_DROP"
    case 7 => "WATER_OUT_MIN_TEMP"
    case 8 => "WATER_OUT_MAX_TEMP"
    case 9 => "ROOM_TEMPERATURE_FINE_TUNING"
    case 10 => "ROOM_TEMPERATURE_FINE_TUNING_WITH_SENSOR"
    case 11 => "HEATING_SHUTDOWN_STATUS"
    case 12 => "TEMPERATURE_LEVEL_STATUS_TEXT"
    case 13 => "CIRCUIT_NAME"
    case 14 => "SUPPLY_WATER_TEMPERATURE"
    case 15 => "ROOM_TEMPERATURE"
    case 16 => "VALVE_POSITION"
    case 17 => "SUPPLY_WATER_TEMPERATURE_SETPOINT"
    case 18 => "ROOM_TEMPERATURE_SETPOINT"
    case 19 => "ROOM_SENSOR_POTENTIOMETER"
    case 20 => "ROOM_SENSOR_INSTALLED"
  }

  function L1Endpoint(i: nat): Endpoint
    requires i < L1Count
  {
    match i
    case 0 => L1OperationMode
    case 1 => L1ValvePositionSetpoint
    case 2 => L1CurveMinus20Temp
    case 3 => L1Curve0Temp
    case 4 => L1Curve20Temp
    case 5 => L1TemperatureDrop
    case 6 => L1BigTemperatureDrop
    case 7 => L1WaterOutMinTemp
    case 8 => L1WaterOutMaxTemp
    case 9 => L1RoomTemperatureFineTuning
    case 10 => L1RoomTemperatureFineTuningWithSensor
    case 11 => Plain("l1_heating_shutdown_status", Text, "S_0_0")
    case 12 => Plain("l1_temperature_level_status_text", Text, "S_1000_0")
    case 13 => Plain("l1_circuit_name", Text, "S_131_85")
    case 14 => Number("l1_supply_water_temperature", Celsius, "S_259_85")
    case 15 => Number("l1_room_temperature", Celsius, "S_261_85")
    case 16 => Number("l1_valve_position", Percent, "S_272_85")
    case 17 => Number("l1_supply_water_temperature_setpoint", Celsius, "S_275_85")
    case 18 => Number("l1_room_temperature_setpoint", Celsius, "S_278_85")
    case 19 => Number("l1_room_sensor_potentiometer", Celsius, "S_274_85")
    case 20 => Plain("l1_room_sensor_installed", Text, "S_261_111")
  }

  function L2Attr(i: nat): string
    requires i < L2Count
  {
    match i
    case 0 => "OPERATION_MODE"
    case 1 => "VALVE_POSITION_SETPOINT"
    case 2 => "CURVE_MINUS_20_TEMP"
    case 3 => "CURVE_0_TEMP"
    case 4 => "CURVE_20_TEMP"
    case 5 => "TEMPERATURE_DROP"
    case 6 => "BIG_TEMPERATURE_DROP"
    case 7 => "WATER_OUT_MIN_TEMP"
    case 8 => "WATER_OUT_MAX_TEMP"
    case 9 => "ROOM_TEMPERATURE_FINE_TUNING"
    case 10 => "ROOM_TEMPERATURE_FINE_TUNING_WITH_SENSOR"
    case 11 => "TEMPERATURE_LEVEL_STATUS_TEXT"
    case 12 => "CIRCUIT_NAME"
    case 13 => "SUPPLY_WATER_TEMPERATURE"
    case 14 => "ROOM_TEMPERATURE"
    case 15 => "SUPPLY_WATER_TEMPERATURE_SETPOINT"
    case 16 => "ROOM_TEMPERATURE_SETPOINT"
    case 17 => "ROOM_SENSOR_POTENTIOMETER"
    case 18 => "ROOM_SENSOR_INSTALLED"
  }

  function L2Endpoint(i: nat): Endpoint
    requires i < L2Count
  {
    match i
    case 0 => EnumControl("l2_operation_mode", EnumUnit, "S_146_85", ["S_146_85"], ["S_146_85"], OperationModeType)
    case 1 => IntControl("l2_valve_position_setpoint", Percent, "S_179_85", "S_179_85", 0, 100)
    case 2 => IntControl("l2_curve_minus_20_temperature", Celsius, "S_148_85", "@_S_148_85", 0, 99)
    case 3 => IntControl("l2_curve_0_temperature", Celsius, "S_150_85", "@_S_150_85", 0, 99)
    case 4 => IntControl("l2_curve_20_temperature", Celsius, "S_152_85", "@_S_152_85", 0, 99)
    case 5 => IntControl("l2_temperature_drop", Celsius, "S_176_85", "@_S_176_85", 0, 90)
    case 6 => IntControl("l2_big_temperature_drop", Celsius, "S_177_85", "@_S_177_85", 0, 90)
    case 7 => IntControl("l2_water_out_minimum_temperature", Celsius, "S_141_85", "@_S_141_85", 5, 95)
    case 8 => IntControl("l2_water_out_maximum_temperature", Celsius, "S_142_85", "@_S_142_85", 5, 95)
    case 9 => FloatControl("l2_room_temperature_fine_tuning", Celsius, "S_221_85", "@_S_221_85", -4.0, 4.0)
    case 10 =>
      FloatControl("l2_room_temperature_fine_tuning_with_sensor", Celsius, "S_189_85", "@_S_189_85", -4.0, 4.0)
    case 11 => Plain("l2_temperature_level_status_text", Text, "S_1001_0")
    case 12 => Plain("l2_circuit_name", Text, "S_218_85")
    case 13 => Number("l2_supply_water_temperature", Celsius, "S_293_85")
    case 14 => Number("l2_room_temperature", Celsius, "S_295_85")
    case 15 => Number("l2_supply_water_temperature_setpoint", Celsius, "S_310_85")
    case 16 => Number("l2_room_temperature_setpoint", Celsius, "S_313_85")
    case 17 => Number("l2_room_sensor_potentiometer", Celsius, "S_307_85")
    case 18 => Plain("l2_room_sensor_installed", Text, "S_295_111")
  }

  function SystemNames(): seq<string> {
    seq(SystemCount, i requires 0 <= i < SystemCount => SystemAttr(i))
  }

  function SystemTable(): seq<Endpoint> {
    seq(SystemCount, i requires 0 <= i < SystemCount => SystemEndpoint(i))
  }

  function L1Names(): seq<string> {
    seq(L1Count, i requires 0 <= i < L1Count => L1Attr(i))
  }

  function L1Table(): seq<Endpoint> {
    seq(L1Count, i requires 0 <= i < L1Count => L1Endpoint(i))
  }

  function L2Names(): seq<string> {
    seq(L2Count, i requires 0 <= i < L2Count => L2Attr(i))
  }

  function L2Table(): seq<Endpoint> {
    seq(L2Count, i requires 0 <= i < L2Count => L2Endpoint(i))
  }

  function SystemEndpointsRegistry(): Registry {
    Declare("SystemEndpoints",
      SystemNames(),
      SystemTable())
  }

  function L1EndpointsRegistry(): Registry {
    Declare("L1Endpoints",
      L1Names(),
      L1Table())
  }

  function L2EndpointsRegistry(): Registry {
    Declare("L2Endpoints",
      L2Names(),
      L2Table())
  }

  /** The three concrete registries. */
  function Concrete(): seq<Registry> {
    [SystemEndpointsRegistry(), L1EndpointsRegistry(), L2EndpointsRegistry()]
  }

  lemma SystemDistinct()
    ensures forall i, j :: 0 <= i < j < SystemCount ==> SystemEndpoint(i).sensorId != SystemEndpoint(j).sensorId
    ensures forall i, j :: 0 <= i < j < SystemCount ==> SystemAttr(i) != SystemAttr(j)
  {
  }

  lemma L1Distinct()
    ensures forall i, j :: 0 <= i < j < L1Count ==> L1Endpoint(i).sensorId != L1Endpoint(j).sensorId
    ensures forall i, j :: 0 <= i < j < L1Count ==> L1Attr(i) != L1Attr(j)
  {
    L1SensorIdsDistinct();
    L1AttrsDistinct();
  }

  lemma L1SensorIdsDistinct()
    ensures forall i, j :: 0 <= i < j < L1Count ==> L1Endpoint(i).sensorId != L1Endpoint(j).sensorId
  {
    L1LowIdsDistinct();
    L1LowHighIdsApart();
    L1HighIdsDistinct();
  }

  lemma L1LowIdsDistinct()
    ensures forall i, j :: 0 <= i < j < 10 ==> L1Endpoint(i).sensorId != L1Endpoint(j).sensorId
  {
  }

  lemma L1LowHighIdsApart()
    ensures forall i, j :: 0 <= i < 10 <= j < L1Count ==> L1Endpoint(i).sensorId != L1Endpoint(j).sensorId
  {
  }

  lemma L1HighIdsDistinct()
    ensures forall i, j :: 10 <= i < j < L1Count ==> L1Endpoint(i).sensorId != L1Endpoint(j).sensorId
  {
  }

  lemma L1AttrsDistinct()
    ensures forall i, j :: 0 <= i < j < L1Count ==> L1Attr(i) != L1Attr(j)
  {
  }

  lemma L2Distinct()
    ensures forall i, j :: 0 <= i < j < L2Count ==> L2Endpoint(i).sensorId != L2Endpoint(j).sensorId
    ensures forall i, j :: 0 <= i < j < L2Count ==> L2Attr(i) != L2Attr(j)
  {
    L2SensorIdsDistinct();
    L2AttrsDistinct();
  }

  lemma L2SensorIdsDistinct()
    ensures forall i, j :: 0 <= i < j < L2Count ==> L2Endpoint(i).sensorId != L2Endpoint(j).sensorId
  {
    L2LowIdsDistinct();
    L2LowHighIdsApart();
    L2HighIdsDistinct();
  }

  lemma L2LowIdsDistinct()
    ensures forall i, j :: 0 <= i < j < 10 ==> L2Endpoint(i).sensorId != L2Endpoint(j).sensorId
  {
  }

  lemma L2LowHighIdsApart()
    ensures forall i, j :: 0 <= i < 10 <= j < L2Count ==> L2Endpoint(i).sensorId != L2Endpoint(j).sensorId
  {
  }

  lemma L2HighIdsDistinct()
    ensures forall i, j :: 10 <= i < j < L2Count ==> L2Endpoint(i).sensorId != L2Endpoint(j).sensorId
  {
  }

  lemma L2AttrsDistinct()
    ensures forall i, j :: 0 <= i < j < L2Count ==> L2Attr(i) != L2Attr(j)
  {
  }

  lemma SystemL1Disjoint()
    ensures forall i, j :: 0 <= i < SystemCount && 0 <= j < L1Count ==> SystemEndpoint(i).sensorId != L1Endpoint(j).sensorId
  {
  }

  lemma SystemL2Disjoint()
    ensures forall i, j :: 0 <= i < SystemCount && 0 <= j < L2Count ==> SystemEndpoint(i).sensorId != L2Endpoint(j).sensorId
  {
    SystemNotInL2Low();
    SystemNotInL2High();
  }

  lemma SystemNotInL2Low()
    ensures forall i, j :: 0 <= i < SystemCount && 0 <= j < 10 ==> SystemEndpoint(i).sensorId != L2Endpoint(j).sensorId
  {
  }

  lemma SystemNotInL2High()
    ensures forall i, j :: 0 <= i < SystemCount && 10 <= j < L2Count ==> SystemEndpoint(i).sensorId != L2Endpoint(j).sensorId
  {
  }

  lemma L1ControlsNotInL2Low()
    ensures forall i, j :: 0 <= i < 11 && 0 <= j < 10 ==> L1Endpoint(i).sensorId != L2Endpoint(j).sensorId
  {
  }

  lemma L1ControlsNotInL2High()
    ensures forall i, j :: 0 <= i < 11 && 10 <= j < L2Count ==> L1Endpoint(i).sensorId != L2Endpoint(j).sensorId
  {
  }

  lemma L1MidReadingsNotInL2Low()
    ensures forall i, j :: 11 <= i < 16 && 0 <= j < 10 ==> L1Endpoint(i).sensorId != L2Endpoint(j).sensorId
  {
  }

  lemma L1LateReadingsNotInL2Low()
    ensures forall i, j :: 16 <= i < L1Count && 0 <= j < 10 ==> L1Endpoint(i).sensorId != L2Endpoint(j).sensorId
  {
  }

  lemma L1MidReadingsNotInL2High()
    ensures forall i, j :: 11 <= i < 16 && 10 <= j < L2Count ==> L1Endpoint(i).sensorId != L2Endpoint(j).sensorId
  {
  }

  lemma L1LateReadingsNotInL2High()
    ensures forall i, j :: 16 <= i < L1Count && 10 <= j < L2Count ==> L1Endpoint(i).sensorId != L2Endpoint(j).sensorId
  {
  }

  lemma L1L2Disjoint()
    ensures forall i, j :: 0 <= i < L1Count && 0 <= j < L2Count ==> L1Endpoint(i).sensorId != L2Endpoint(j).sensorId
  {
    L1ControlsNotInL2Low();
    L1ControlsNotInL2High();
    L1MidReadingsNotInL2Low();
    L1LateReadingsNotInL2Low();
    L1MidReadingsNotInL2High();
    L1LateReadingsNotInL2High();
  }

  /**
    A registry binds every name once, gives every endpoint its own sensor id,
    and every int or float control it declares accepts a non-empty range.
   */
  predicate Sound(r: Registry) {
    && WellFormed(r)
    && Distinct(SensorIds(IterateEndpoints(r)))
    && (forall e :: e in IterateEndpoints(r) ==> e.BoundsOrdered())
  }

  /** No sensor id belongs to both registries. */
  predicate Disjoint(a: Registry, b: Registry) {
    forall id :: id in SensorIds(IterateEndpoints(a)) ==> id !in SensorIds(IterateEndpoints(b))
  }

  /** In a sound registry, lookup by sensor id finds each endpoint. */
  lemma SoundLookup(r: Registry, i: int)
    requires Sound(r)
    requires 0 <= i < |IterateEndpoints(r)|
    ensures Lookup(IterateEndpoints(r), IterateEndpoints(r)[i].sensorId) == Some(IterateEndpoints(r)[i])
  {
    LookupInverts(IterateEndpoints(r), i);
  }

  /** A declared table whose names and sensor ids are pairwise distinct and whose bounds are ordered is sound. */
  lemma DeclaredSound(name: string, attrs: seq<string>, eps: seq<Endpoint>)
    requires |attrs| == |eps|
    requires forall i, j :: 0 <= i < j < |attrs| ==> attrs[i] != attrs[j]
    requires forall i, j :: 0 <= i < j < |eps| ==> eps[i].sensorId != eps[j].sensorId
    requires forall i :: 0 <= i < |eps| ==> eps[i].BoundsOrdered()
    ensures Sound(Declare(name, attrs, eps))
  {
    var r := Declare(name, attrs, eps);
    assert IterateEndpoints(r) == eps;
    assert SensorIds(eps) == seq(|eps|, i requires 0 <= i < |eps| => eps[i].sensorId);
  }

  /** Two declared tables with no shared id give registries disjoint both ways. */
  lemma TablesApart(na: string, attrsA: seq<string>, epsA: seq<Endpoint>,
                    nb: string, attrsB: seq<string>, epsB: seq<Endpoint>)
    requires |attrsA| == |epsA| && |attrsB| == |epsB|
    requires forall i, j :: 0 <= i < |epsA| && 0 <= j < |epsB| ==> epsA[i].sensorId != epsB[j].sensorId
    ensures Disjoint(Declare(na, attrsA, epsA), Declare(nb, attrsB, epsB))
    ensures Disjoint(Declare(nb, attrsB, epsB), Declare(na, attrsA, epsA))
  {
    DeclaredDisjoint(na, attrsA, epsA, nb, attrsB, epsB);
    DeclaredDisjoint(nb, attrsB, epsB, na, attrsA, epsA);
  }

  lemma DeclaredDisjoint(na: string, attrsA: seq<string>, epsA: seq<Endpoint>,
                         nb: string, attrsB: seq<string>, epsB: seq<Endpoint>)
    requires |attrsA| == |epsA| && |attrsB| == |epsB|
    requires forall i, j :: 0 <= i < |epsA| && 0 <= j < |epsB| ==> epsA[i].sensorId != epsB[j].sensorId
    ensures Disjoint(Declare(na, attrsA, epsA), Declare(nb, attrsB, epsB))
  {
    var a, b := Declare(na, attrsA, epsA), Declare(nb, attrsB, epsB);
    assert IterateEndpoints(a) == epsA;
    assert IterateEndpoints(b) == epsB;
    forall id | id in SensorIds(epsA) ensures id !in SensorIds(epsB) {
      var i :| 0 <= i < |epsA| && SensorIds(epsA)[i] == id;
    }
  }

  lemma SystemEndpointsSound()
    ensures Sound(SystemEndpointsRegistry())
  {
    SystemTableFacts();
    DeclaredSound("SystemEndpoints", SystemNames(), SystemTable());
  }

  /** The system table's names and ids are pairwise distinct and its bounds ordered, stated on the sequences. */
  lemma SystemTableFacts()
    ensures |SystemNames()| == |SystemTable()|
    ensures forall i, j :: 0 <= i < j < |SystemNames()| ==> SystemNames()[i] != SystemNames()[j]
    ensures forall i, j :: 0 <= i < j < |SystemTable()| ==> SystemTable()[i].sensorId != SystemTable()[j].sensorId
    ensures forall i :: 0 <= i < |SystemTable()| ==> SystemTable()[i].BoundsOrdered()
  {
    SystemDistinct();
    SystemBoundsOrdered();
  }

  lemma SystemBoundsOrdered()
    ensures forall i :: 0 <= i < SystemCount ==> SystemEndpoint(i).BoundsOrdered()
  {
  }

  lemma L1EndpointsSound()
    ensures Sound(L1EndpointsRegistry())
  {
    L1TableFacts();
    DeclaredSound("L1Endpoints", L1Names(), L1Table());
  }

  /** The L1 table's names and ids are pairwise distinct and its bounds ordered, stated on the sequences. */
  lemma L1TableFacts()
    ensures |L1Names()| == |L1Table()|
    ensures forall i, j :: 0 <= i < j < |L1Names()| ==> L1Names()[i] != L1Names()[j]
    ensures forall i, j :: 0 <= i < j < |L1Table()| ==> L1Table()[i].sensorId != L1Table()[j].sensorId
    ensures forall i :: 0 <= i < |L1Table()| ==> L1Table()[i].BoundsOrdered()
  {
    L1Distinct();
  }

  lemma L2EndpointsSound()
    ensures Sound(L2EndpointsRegistry())
  {
    L2TableFacts();
    DeclaredSound("L2Endpoints", L2Names(), L2Table());
  }

  /** The L2 table's names and ids are pairwise distinct and its bounds ordered, stated on the sequences. */
  lemma L2TableFacts()
    ensures |L2Names()| == |L2Table()|
    ensures forall i, j :: 0 <= i < j < |L2Names()| ==> L2Names()[i] != L2Names()[j]
    ensures forall i, j :: 0 <= i < j < |L2Table()| ==> L2Table()[i].sensorId != L2Table()[j].sensorId
    ensures forall i :: 0 <= i < |L2Table()| ==> L2Table()[i].BoundsOrdered()
  {
    L2Distinct();
  }

  /** The system, L1 and L2 registries share no sensor id, in either order. */
  lemma ConcreteRegistriesDisjoint()
    ensures Disjoint(SystemEndpointsRegistry(), L1EndpointsRegistry())
    ensures Disjoint(SystemEndpointsRegistry(), L2EndpointsRegistry())
    ensures Disjoint(L1EndpointsRegistry(), L2EndpointsRegistry())
    ensures Disjoint(L1EndpointsRegistry(), SystemEndpointsRegistry())
    ensures Disjoint(L2EndpointsRegistry(), SystemEndpointsRegistry())
    ensures Disjoint(L2EndpointsRegistry(), L1EndpointsRegistry())
  {
    SystemAndL1Apart();
    SystemAndL2Apart();
    L1AndL2Apart();
  }

  lemma SystemAndL1Apart()
    ensures Disjoint(SystemEndpointsRegistry(), L1EndpointsRegistry())
    ensures Disjoint(L1EndpointsRegistry(), SystemEndpointsRegistry())
  {
    SystemL1Tables();
    TablesApart("SystemEndpoints", SystemNames(), SystemTable(), "L1Endpoints", L1Names(), L1Table());
  }

  lemma SystemL1Tables()
    ensures |SystemNames()| == |SystemTable()| && |L1Names()| == |L1Table()|
    ensures forall i, j :: 0 <= i < |SystemTable()| && 0 <= j < |L1Table()| ==> SystemTable()[i].sensorId != L1Table()[j].sensorId
  {
    SystemL1Disjoint();
  }

  lemma SystemAndL2Apart()
    ensures Disjoint(SystemEndpointsRegistry(), L2EndpointsRegistry())
    ensures Disjoint(L2EndpointsRegistry(), SystemEndpointsRegistry())
  {
    SystemL2Tables();
    TablesApart("SystemEndpoints", SystemNames(), SystemTable(), "L2Endpoints", L2Names(), L2Table());
  }

  lemma SystemL2Tables()
    ensures |SystemNames()| == |SystemTable()| && |L2Names()| == |L2Table()|
    ensures forall i, j :: 0 <= i < |SystemTable()| && 0 <= j < |L2Table()| ==> SystemTable()[i].sensorId != L2Table()[j].sensorId
  {
    SystemL2Disjoint();
  }

  lemma L1AndL2Apart()
    ensures Disjoint(L1EndpointsRegistry(), L2EndpointsRegistry())
    ensures Disjoint(L2EndpointsRegistry(), L1EndpointsRegistry())
  {
    L1L2Tables();
    TablesApart("L1Endpoints", L1Names(), L1Table(), "L2Endpoints", L2Names(), L2Table());
  }

  lemma L1L2Tables()
    ensures |L1Names()| == |L1Table()| && |L2Names()| == |L2Table()|
    ensures forall i, j :: 0 <= i < |L1Table()| && 0 <= j < |L2Table()| ==> L1Table()[i].sensorId != L2Table()[j].sensorId
  {
    L1L2Disjoint();
  }

  /** The L1 registry declares the very controls the client writes through, first in its table. */
  lemma L1DeclaresClientControls()
    ensures IterateEndpoints(L1EndpointsRegistry())[..11] == L1Controls()
  {
    DeclaredIterates("L1Endpoints", L1Names(), L1Table());
    L1TableStartsWithControls();
    var eps := L1Table();
    forall i | 0 <= i < 11 ensures eps[i] == L1Controls()[i] {
      assert eps[i] == L1Endpoint(i);
    }
    SamePrefix(eps, L1Controls());
  }

  lemma L1TableStartsWithControls()
    ensures |L1Controls()| == 11
    ensures forall i :: 0 <= i < 11 ==> L1Endpoint(i) == L1Controls()[i]
  {
  }

  /** A table that agrees with `pre` on its first `|pre|` entries starts with `pre`. */
  lemma SamePrefix(eps: seq<Endpoint>, pre: seq<Endpoint>)
    requires |pre| <= |eps|
    requires forall i :: 0 <= i < |pre| ==> eps[i] == pre[i]
    ensures eps[..|pre|] == pre
  {
  }

  /** The system registry declares the system controls the client writes through, first in its table. */
  lemma SystemDeclaresClientControls()
    ensures IterateEndpoints(SystemEndpointsRegistry())[..2] == SystemControls()
  {
    DeclaredIterates("SystemEndpoints", SystemNames(), SystemTable());
    SystemTableStartsWithControls();
    var eps := SystemTable();
    forall i | 0 <= i < 2 ensures eps[i] == SystemControls()[i] {
      assert eps[i] == SystemEndpoint(i);
    }
    SamePrefix(eps, SystemControls());
  }

  lemma SystemTableStartsWithControls()
    ensures |SystemControls()| == 2
    ensures forall i :: 0 <= i < 2 ==> SystemEndpoint(i) == SystemControls()[i]
  {
  }

  /** Only the tenth L1 endpoint is named `l1_room_temperature_fine_tuning`; likewise for L2. */
  lemma FineTuningNamedOnce()
    ensures forall i :: 0 <= i < L1Count && L1Endpoint(i).name == "l1_room_temperature_fine_tuning" ==> i == 9
    ensures forall i :: 0 <= i < L2Count && L2Endpoint(i).name == "l2_room_temperature_fine_tuning" ==> i == 9
  {
  }
}
