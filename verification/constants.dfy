/**
  The constant tables the client uses to present a reading: the wire id to
  name table and the per-id code to label tables, with the closed value sets
  of the two enumerated controls.
 */
module Const {
  import opened Wrappers
  import opened Dict

  /** The unit tag of an endpoint. */
  datatype Unit = Celsius | Percent | Second | EnumUnit | Text

  /** The heating circuit's operation mode (a string enumeration of wire codes). */
  datatype OperationMode =
    | Automatic | TemperatureSetback | GreaterTemperatureSetback
    | NormalTemperature | Shutdown | ManualValveControl

  /** The home/away setting. */
  datatype HomeAwayControl = Home | Away | HomeAwayOff

  /** Which enumeration an enum control accepts. */
  datatype EnumType = OperationModeType | HomeAwayControlType

  /** A member of one of the enumerations. */
  datatype ControlValue = Mode(mode: OperationMode) | Setting(setting: HomeAwayControl) {

    /** The enumeration this value belongs to (Python's `isinstance` test against `enum_type`). */
    function Type(): EnumType {
      match this
      case Mode(_) => OperationModeType
      case Setting(_) => HomeAwayControlType
    }

    /** The wire code the value stands for. */
    function Code(): string {
      match this
      case Mode(m) =>
        (match m
         case Automatic => "0"
         case TemperatureSetback => "1"
         case GreaterTemperatureSetback => "2"
         case NormalTemperature => "3"
         case Shutdown => "5"
         case ManualValveControl => "6")
      case Setting(s) =>
        (match s
         case Home => "0"
         case Away => "1"
         case HomeAwayOff => "2")
    }

    /** The name `get_values` shows for the value's code: the member's name in lower snake case. */
    function Label(): string {
      match this
      case Mode(m) =>
        (match m
         case Automatic => "automatic"
         case TemperatureSetback => "temperature_setback"
         case GreaterTemperatureSetback => "greater_temperature_setback"
         case NormalTemperature => "normal_temperature"
         case Shutdown => "shutdown"
         case ManualValveControl => "manual_valve_control")
      case Setting(s) =>
        (match s
         case Home => "home"
         case Away => "away"
         case HomeAwayOff => "home_away_off")
    }
  }

  /** The member of enumeration `t` whose wire code is `code`, if any. */
  function FromCode(t: EnumType, code: string): (v: Option<ControlValue>)
    ensures v.Some? ==> v.value.Type() == t && v.value.Code() == code
  {
    match t
    case OperationModeType =>
      if code == "0" then Some(Mode(Automatic))
      else if code == "1" then Some(Mode(TemperatureSetback))
      else if code == "2" then Some(Mode(GreaterTemperatureSetback))
      else if code == "3" then Some(Mode(NormalTemperature))
      else if code == "5" then Some(Mode(Shutdown))
      else if code == "6" then Some(Mode(ManualValveControl))
      else None
    case HomeAwayControlType =>
      if code == "0" then Some(Setting(Home))
      else if code == "1" then Some(Setting(Away))
      else if code == "2" then Some(Setting(HomeAwayOff))
      else None
  }

  /** Every value reads back from its code, so distinct values of one enumeration have distinct codes. */
  lemma CodeRoundTrip(v: ControlValue)
    ensures FromCode(v.Type(), v.Code()) == Some(v)
  {
  }

  /** The wire id of entry `i` of the wire id to name table, in declaration order. */
  function EndpointId(i: nat): string
    requires i < 48
  {
    match i
    case 0 => "S_227_85"
    case 1 => "S_135_85"
    case 2 => "S_222_85"
    case 3 => "S_26_85"
    case 4 => "S_0_0"
    case 5 => "S_1000_0"
    case 6 => "S_54_85"
    case 7 => "S_55_85"
    case 8 => "S_59_85"
    case 9 => "S_61_85"
    case 10 => "S_63_85"
    case 11 => "S_65_85"
    case 12 => "S_89_85"
    case 13 => "S_90_85"
    case 14 => "S_92_85"
    case 15 => "S_102_85"
    case 16 => "S_131_85"
    case 17 => "S_134_85"
    case 18 => "S_259_85"
    case 19 => "S_261_85"
    case 20 => "S_272_85"
    case 21 => "S_275_85"
    case 22 => "S_278_85"
    case 23 => "S_274_85"
    case 24 => "S_307_85"
    case 25 => "S_1001_0"
    case 26 => "S_141_85"
    case 27 => "S_142_85"
    case 28 => "S_146_85"
    case 29 => "S_148_85"
    case 30 => "S_150_85"
    case 31 => "S_152_85"
    case 32 => "S_176_85"
    case 33 => "S_177_85"
    case 34 => "S_179_85"
    case 35 => "S_189_85"
    case 36 => "S_218_85"
    case 37 => "S_221_85"
    case 38 => "S_293_85"
    case 39 => "S_295_85"
    case 40 => "S_310_85"
    case 41 => "S_313_85"
    case 42 => "S_140_85"
    case 43 => "S_261_111"
    case 44 => "S_295_111"
    case 45 => "S_1002_85"
    case 46 => "S_1004_0"
    case 47 => "S_1004_85"
  }

  /** The name of entry `i` of the wire id to name table. */
  function EndpointName(i: nat): string
    requires i < 48
  {
    match i
    case 0 => "outside_temperature"
    case 1 => "home_away_mode"
    case 2 => "home_away_update_sync"
    case 3 => "trend_sampling_interval"
    case 4 => "l1_heating_shutdown_status"
    case 5 => "l1_temperature_level_status_text"
    case 6 => "l1_supply_water_minimum_temperature_setpoint"
    case 7 => "l1_supply_water_maximum_temperature_setpoint"
    case 8 => "l1_operation_mode"
    case 9 => "l1_temperature_curve_-20_c_setpoint"
    case 10 => "l1_temperature_curve_0_c_setpoint"
    case 11 => "l1_temperature_curve_20_c_setpoint"
    case 12 => "l1_supply_water_temperature_setback"
    case 13 => "l1_supply_water_greater_temperature_setback"
    case 14 => "l1_valve_manual_setpoint"
    case 15 => "l1_room_temperature_fine_tuning_with_sensor"
    case 16 => "l1_circuit_name"
    case 17 => "l1_room_temperature_fine_tuning"
    case 18 => "l1_supply_water_temperature"
    case 19 => "l1_room_temperature"
    case 20 => "l1_valve_position"
    case 21 => "l1_supply_water_temperature_setpoint"
    case 22 => "l1_room_temperature_setpoint"
    case 23 => "l1_room_sensor_potentiometer"
    case 24 => "l2_room_sensor_potentiometer"
    case 25 => "l2_temperature_level_status_text"
    case 26 => "l2_supply_water_minimum_temperature_setpoint"
    case 27 => "l2_supply_water_maximum_temperature_setpoint"
    case 28 => "l2_operation_mode"
    case 29 => "l2_temperature_curve_-20_c_setpoint"
    case 30 => "l2_temperature_curve_0_c_setpoint"
    case 31 => "l2_temperature_curve_20_c_setpoint"
    case 32 => "l2_supply_water_temperature_setback"
    case 33 => "l2_supply_water_greater_temperature_setback"
    case 34 => "l2_valve_manual_setpoint"
    case 35 => "l2_room_temperature_fine_tuning_with_sensor"
    case 36 => "l2_circuit_name"
    case 37 => "l2_room_temperature_fine_tuning"
    case 38 => "l2_supply_water_temperature"
    case 39 => "l2_room_temperature"
    case 40 => "l2_supply_water_temperature_setpoint"
    case 41 => "l2_room_temperature_setpoint"
    case 42 => "l2_installed_status"
    case 43 => "l1_room_sensor_installed"
    case 44 => "l2_room_sensor_installed"
    case 45 => "relay_configuration_type"
    case 46 => "relay_status_text_2"
    case 47 => "relay_status_text"
  }

  /** The wire id to name table (`ENDPOINTS`). */
  function EndpointNames(): Dict<string, string> {
    seq(48, i requires 0 <= i < 48 => (EndpointId(i), EndpointName(i)))
  }

  /** The table names every wire id once and gives every id its own name. */
  lemma EndpointNamesInjective()
    ensures Valid(EndpointNames())
    ensures Distinct(Values(EndpointNames()))
  {
    EntryKeysDistinct();
    EntryNamesDistinct();
  }

  lemma EntryKeysDistinct()
    ensures forall i, j :: 0 <= i < j < 48 ==> EndpointId(i) != EndpointId(j)
  {
  }

  lemma EntryNamesDistinct()
    ensures forall i, j :: 0 <= i < j < 48 ==> EndpointName(i) != EndpointName(j)
  {
    NamesDistinct00();
    NamesDistinct01();
    NamesDistinct02();
    NamesDistinct11();
    NamesDistinct12();
    NamesDistinct22();
  }

  lemma NamesDistinct00()
    ensures forall i, j :: 0 <= i < j < 16 ==> EndpointName(i) != EndpointName(j)
  {
  }

  lemma NamesDistinct01()
    ensures forall i, j :: 0 <= i < 16 <= j < 32 ==> EndpointName(i) != EndpointName(j)
  {
  }

  lemma NamesDistinct02()
    ensures forall i, j :: 0 <= i < 16 <= j < 48 ==> EndpointName(i) != EndpointName(j)
  {
  }

  lemma NamesDistinct11()
    ensures forall i, j :: 16 <= i < j < 32 ==> EndpointName(i) != EndpointName(j)
  {
  }

  lemma NamesDistinct12()
    ensures forall i, j :: 16 <= i < 32 <= j < 48 ==> EndpointName(i) != EndpointName(j)
  {
  }

  lemma NamesDistinct22()
    ensures forall i, j :: 32 <= i < j < 48 ==> EndpointName(i) != EndpointName(j)
  {
  }

  /** The L1 operation mode labels (`ENDPOINT_VALUE_MAPPING["S_59_85"]`). */
  function L1ModeLabels(): Dict<string, string> {
    [ ("0", "automatic"), ("1", "temperature_setback"), ("2", "greater_temperature_setback"),
      ("3", "normal_temperature"), ("5", "shutdown"), ("6", "manual_valve_control") ]
  }

  /** The home/away labels (`ENDPOINT_VALUE_MAPPING["S_135_85"]`). */
  function HomeAwayLabels(): Dict<string, string> {
    [ ("0", "home"), ("1", "away"), ("2", "home_away_off") ]
  }

  /** The L2 operation mode labels (`ENDPOINT_VALUE_MAPPING["S_146_85"]`). */
  function L2ModeLabels(): Dict<string, string> {
    [ ("0", "automatic"), ("1", "temperature_setback"), ("2", "greater_temperature_setback"),
      ("3", "normal_temperature"), ("5", "shutdown"), ("6", "manual_valve_control") ]
  }

  /** The code to label tables by wire id (`ENDPOINT_VALUE_MAPPING`). */
  function ValueMappings(): Dict<string, Dict<string, string>> {
    [ ("S_59_85", L1ModeLabels()), ("S_135_85", HomeAwayLabels()), ("S_146_85", L2ModeLabels()) ]
  }

  /** Each code table is well formed and injective; the L2 table is the L1 table. */
  lemma LabelTablesInjective()
    ensures Valid(L1ModeLabels()) && Distinct(Values(L1ModeLabels()))
    ensures Valid(HomeAwayLabels()) && Distinct(Values(HomeAwayLabels()))
    ensures L2ModeLabels() == L1ModeLabels()
  {
  }

  /**
    The operation mode table labels exactly the operation mode codes (so code
    `"4"` has no label), and the home/away table exactly the home/away codes.
   */
  lemma LabelTablesCoverCodes(code: string)
    ensures Get(L1ModeLabels(), code).Some? <==> FromCode(OperationModeType, code).Some?
    ensures Get(HomeAwayLabels(), code).Some? <==> FromCode(HomeAwayControlType, code).Some?
    ensures Get(L1ModeLabels(), "4") == None
  {
  }

  /** A label reads back to its code through the inverted table. */
  lemma LabelRoundTrip(code: string, caption: string)
    ensures Get(L1ModeLabels(), code) == Some(caption) <==> Get(Swap(L1ModeLabels()), caption) == Some(code)
    ensures Get(HomeAwayLabels(), code) == Some(caption) <==> Get(Swap(HomeAwayLabels()), caption) == Some(code)
  {
    LabelTablesInjective();
    InverseRoundTrip(L1ModeLabels(), code, caption);
    InverseRoundTrip(HomeAwayLabels(), code, caption);
  }

  /** The name a reading key is shown under: its table name, or the key itself when unknown. */
  function Rename(key: string): (name: string)
    ensures key !in Keys(EndpointNames()) ==> name == key
    ensures key in Keys(EndpointNames()) ==>
      exists i :: 0 <= i < 48 && EndpointId(i) == key && EndpointName(i) == name
  {
    var r := Get(EndpointNames(), key);
    if r.Some? then
      var i :| 0 <= i < |EndpointNames()| && EndpointNames()[i] == (key, r.value);
      r.value
    else key
  }

  /** The label a raw value is shown as: its label in the key's code table, or the raw value. */
  function Decode(key: string, value: string): (shown: string)
    ensures Get(ValueMappings(), key).None? ==> shown == value
    ensures Get(ValueMappings(), key).Some? && Get(Get(ValueMappings(), key).value, value).None? ==> shown == value
    ensures Get(ValueMappings(), key).Some? && Get(Get(ValueMappings(), key).value, value).Some? ==>
      shown == Get(Get(ValueMappings(), key).value, value).value
  {
    match Get(ValueMappings(), key)
    case None => value
    case Some(table) => Get(table, value).GetOr(value)
  }

  /**
    Decoding an enumeration value's code under an operation mode id or the
    home/away id shows the value's label, and that label reads back to the
    code through the inverted table.
   */
  lemma DecodeShowsLabel(v: ControlValue)
    ensures v.Mode? ==> Decode("S_59_85", v.Code()) == v.Label() && Decode("S_146_85", v.Code()) == v.Label()
    ensures v.Setting? ==> Decode("S_135_85", v.Code()) == v.Label()
    ensures v.Mode? ==> Get(Swap(L1ModeLabels()), v.Label()) == Some(v.Code())
    ensures v.Setting? ==> Get(Swap(HomeAwayLabels()), v.Label()) == Some(v.Code())
  {
    match v
    case Mode(m) =>
      ModeLabelled(m);
      LabelRoundTrip(v.Code(), v.Label());
    case Setting(s) =>
      HomeAwayLabelled(s);
      LabelRoundTrip(v.Code(), v.Label());
  }

  lemma ModeLabelled(m: OperationMode)
    ensures Get(L1ModeLabels(), Mode(m).Code()) == Some(Mode(m).Label())
  {
    LabelTablesInjective();
    var i := match m
      case Automatic => 0 case TemperatureSetback => 1 case GreaterTemperatureSetback => 2
      case NormalTemperature => 3 case Shutdown => 4 case ManualValveControl => 5;
    assert L1ModeLabels()[i] == (Mode(m).Code(), Mode(m).Label());
    GetAt(L1ModeLabels(), i);
  }

  lemma HomeAwayLabelled(s: HomeAwayControl)
    ensures Get(HomeAwayLabels(), Setting(s).Code()) == Some(Setting(s).Label())
  {
    LabelTablesInjective();
    var i := match s case Home => 0 case Away => 1 case HomeAwayOff => 2;
    assert HomeAwayLabels()[i] == (Setting(s).Code(), Setting(s).Label());
    GetAt(HomeAwayLabels(), i);
  }

  /** The renamed, decoded pairs of a reading, in order. */
  function Shown(values: Dict<string, string>): seq<(string, string)> {
    seq(|values|, i requires 0 <= i < |values| => (Rename(values[i].0), Decode(values[i].0, values[i].1)))
  }

  /**
    A reading as `get_values` presents it: every key renamed, every value
    decoded, collected into a dictionary (a later collision overwrites).
   */
  function Translate(values: Dict<string, string>): (shown: Dict<string, string>)
    ensures Valid(shown)
    ensures |shown| <= |values|
    ensures forall name :: name in Keys(shown) <==> exists i :: 0 <= i < |values| && Rename(values[i].0) == name
  {
    var pairs := Shown(values);
    assert forall name :: name in Keys(pairs) <==> exists i :: 0 <= i < |values| && Rename(values[i].0) == name by {
      forall name ensures name in Keys(pairs) ==> exists i :: 0 <= i < |values| && Rename(values[i].0) == name {
        if name in Keys(pairs) {
          var i :| 0 <= i < |pairs| && Keys(pairs)[i] == name;
        }
      }
      forall name ensures (exists i :: 0 <= i < |values| && Rename(values[i].0) == name) ==> name in Keys(pairs) {
        if exists i :: 0 <= i < |values| && Rename(values[i].0) == name {
          var i :| 0 <= i < |values| && Rename(values[i].0) == name;
          assert Keys(pairs)[i] == name;
        }
      }
    }
    FromPairs(pairs)
  }

  /** No two keys of a reading are shown under the same name. */
  predicate RenamesApart(values: Dict<string, string>) {
    forall i, j :: 0 <= i < j < |values| ==> Rename(values[i].0) != Rename(values[j].0)
  }

  /** Distinct keys that all appear in the name table are shown under distinct names. */
  lemma {:induction false} KnownKeysRenameApart(values: Dict<string, string>)
    requires Valid(values)
    requires forall i :: 0 <= i < |values| ==> values[i].0 in Keys(EndpointNames())
    ensures RenamesApart(values)
  {
    EndpointNamesInjective();
    forall i, j | 0 <= i < j < |values| ensures Rename(values[i].0) != Rename(values[j].0) {
      assert Keys(values)[i] != Keys(values)[j];
      var a :| 0 <= a < 48 && EndpointId(a) == values[i].0 && EndpointName(a) == Rename(values[i].0);
      var b :| 0 <= b < 48 && EndpointId(b) == values[j].0 && EndpointName(b) == Rename(values[j].0);
      assert Values(EndpointNames())[a] != Values(EndpointNames())[b];
    }
  }

  /**
    When no two keys are shown under the same name, nothing is lost: the
    presented reading has one entry per key, holding its decoded value.
   */
  lemma {:induction false} TranslateKeepsEveryKey(values: Dict<string, string>, key: string, value: string)
    requires RenamesApart(values)
    ensures |Translate(values)| == |values|
    ensures Get(values, key) == Some(value) ==> Get(Translate(values), Rename(key)) == Some(Decode(key, value))
  {
    var pairs := Shown(values);
    assert Distinct(Keys(pairs)) by {
      forall i, j | 0 <= i < j < |pairs| ensures Keys(pairs)[i] != Keys(pairs)[j] {
        assert Rename(values[i].0) != Rename(values[j].0);
      }
    }
    FromDistinctPairs(pairs);
    if Get(values, key) == Some(value) {
      var i :| 0 <= i < |values| && values[i] == (key, value);
      GetAt(pairs, i);
    }
  }
}
