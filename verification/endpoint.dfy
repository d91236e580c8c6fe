/**
  Endpoint descriptors: what a wire id means and, for the writable ones,
  which ids a write goes to, which ids confirm it and which values it accepts.
 */
module Endpoints {
  import opened Const

  /**
    The five endpoint kinds. Python dataclass equality compares the class and
    every field, which is exactly datatype equality here: two endpoints with
    the same fields but different kinds are different.
   */
  datatype Endpoint =
    | Plain(name: string, unit: Unit, sensorId: string)
    | Number(name: string, unit: Unit, sensorId: string)
    | IntControl(name: string, unit: Unit, sensorId: string, controlId: string, minInt: int, maxInt: int)
    | FloatControl(name: string, unit: Unit, sensorId: string, controlId: string, minReal: real, maxReal: real)
    | EnumControl(
        name: string, unit: Unit, sensorId: string,
        controlIds: seq<string>, responseIds: seq<string>, enumType: EnumType)
  {
    /** `isinstance(e, NumberOumanEndpoint)`: the int and float controls are number endpoints too. */
    predicate IsNumber() {
      Number? || IntControl? || FloatControl?
    }

    /** A write accepts at least one value: the lower bound does not exceed the upper one. */
    predicate BoundsOrdered() {
      && (IntControl? ==> minInt <= maxInt)
      && (FloatControl? ==> minReal <= maxReal)
    }

    /**
      A number control writes to its sensor id or to the sensor id prefixed
      with `@_`; an enum control writes at least its own sensor id and names
      at least one id that confirms the write.
     */
    predicate ControlsWired() {
      && ((IntControl? || FloatControl?) ==> Wired(controlId, sensorId))
      && (EnumControl? ==> sensorId in controlIds && |responseIds| > 0)
    }
  }

  /** A control id reaches the value read under `sensorId`. */
  predicate Wired(controlId: string, sensorId: string) {
    controlId == sensorId || controlId == "@_" + sensorId
  }

  const L1OperationMode := EnumControl("l1_operation_mode", EnumUnit, "S_59_85", ["S_59_85"], ["S_59_85"], OperationModeType)
  const L1ValvePositionSetpoint := IntControl("l1_valve_position_setpoint", Percent, "S_92_85", "S_92_85", 0, 100)
  const L1CurveMinus20Temp := IntControl("l1_curve_minus_20_temperature", Celsius, "S_61_85", "@_S_61_85", 0, 99)
  const L1Curve0Temp := IntControl("l1_curve_0_temperature", Celsius, "S_63_85", "@_S_63_85", 0, 99)
  const L1Curve20Temp := IntControl("l1_curve_20_temperature", Celsius, "S_65_85", "@_S_65_85", 0, 99)
  const L1TemperatureDrop := IntControl("l1_temperature_drop", Celsius, "S_89_85", "@_S_89_85", 0, 90)
  const L1BigTemperatureDrop := IntControl("l1_big_temperature_drop", Celsius, "S_90_85", "@_S_90_85", 0, 90)
  const L1WaterOutMinTemp := IntControl("l1_water_out_minimum_temperature", Celsius, "S_54_85", "@_S_54_85", 5, 95)
  const L1WaterOutMaxTemp := IntControl("l1_water_out_maximum_temperature", Celsius, "S_55_85", "@_S_55_85", 5, 95)
  const L1RoomTemperatureFineTuning :=
    FloatControl("l1_room_temperature_fine_tuning", Celsius, "S_134_85", "@_S_134_85", -4.0, 4.0)
  const L1RoomTemperatureFineTuningWithSensor :=
    FloatControl("l1_room_temperature_fine_tuning_with_sensor", Celsius, "S_102_85", "@_S_102_85", -4.0, 4.0)

  const TrendSampleInterval := IntControl("trend_sampling_interval", Second, "S_26_85", "@_S_26_85", 30, 21600)
  const HomeAwayMode :=
    EnumControl("home_away_mode", EnumUnit, "S_135_85", ["S_135_85", "S_222_85"], ["S_222_85"], HomeAwayControlType)

  /** The L1 controls the client writes, in declaration order. */
  function L1Controls(): seq<Endpoint> {
    [ L1OperationMode, L1ValvePositionSetpoint, L1CurveMinus20Temp, L1Curve0Temp, L1Curve20Temp,
      L1TemperatureDrop, L1BigTemperatureDrop, L1WaterOutMinTemp, L1WaterOutMaxTemp,
      L1RoomTemperatureFineTuning, L1RoomTemperatureFineTuningWithSensor ]
  }

  /** The system-wide controls the client writes. */
  function SystemControls(): seq<Endpoint> {
    [ TrendSampleInterval, HomeAwayMode ]
  }

  /**
    Every control the client writes accepts a non-empty range and is wired
    to the id its value is read back from.
   */
  lemma ControlsWellFormed()
    ensures forall e :: e in L1Controls() + SystemControls() ==> e.BoundsOrdered() && e.ControlsWired()
  {
    assert "@_" + "S_61_85" == "@_S_61_85";
    assert "@_" + "S_63_85" == "@_S_63_85";
    assert "@_" + "S_65_85" == "@_S_65_85";
    assert "@_" + "S_89_85" == "@_S_89_85";
    assert "@_" + "S_90_85" == "@_S_90_85";
    assert "@_" + "S_54_85" == "@_S_54_85";
    assert "@_" + "S_55_85" == "@_S_55_85";
    assert "@_" + "S_134_85" == "@_S_134_85";
    assert "@_" + "S_102_85" == "@_S_102_85";
    assert "@_" + "S_26_85" == "@_S_26_85";
  }

  /** Both room temperature fine-tuning controls, the only float controls, accept exactly [-4.0, 4.0]. */
  lemma FineTuningBounds()
    ensures forall e :: e in L1Controls() + SystemControls() && e.FloatControl? ==>
      e.minReal == -4.0 && e.maxReal == 4.0
    ensures L1RoomTemperatureFineTuning in L1Controls() && L1RoomTemperatureFineTuningWithSensor in L1Controls()
  {
  }

  /**
    The home/away control writes two ids but is confirmed on the second one
    only, not on the id it is read from.
   */
  lemma HomeAwayConfirmation()
    ensures HomeAwayMode.controlIds == [HomeAwayMode.sensorId, "S_222_85"]
    ensures HomeAwayMode.responseIds == ["S_222_85"]
    ensures HomeAwayMode.sensorId !in HomeAwayMode.responseIds
  {
  }
}
