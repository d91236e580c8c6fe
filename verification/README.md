# Ouman EH-800 client, modelled in Dafny

This project models the core of a Python client for the Ouman EH-800 heating controller. The
client talks to the device's small HTTP API. A request goes to `address/path?p1;p2;…;<timestamp>=`.
The reply is text of the form `prefix?key=value;key=value;\0`. The client logs in and out. It reads
every known sensor id in one batched request and renames the keys and values it gets back. It
writes controls through `update` requests and confirms each write by reading back the value the
device echoes. Endpoint descriptors and registries describe what every wire id means. A registry
set combines registries and refuses combinations in which two endpoints share a sensor id.

The model is functional. The HTTP transport is a scripted sequence of outcomes (`Client.Transport`):
each request consumes one outcome and records the call it made. So "no request was issued",
"exactly one login, then exactly one retry" and "the answer to the third request is the result"
are statements about how much of the script was consumed.

Modules, in dependency order:

- `Wrappers`: `Option` and `Result`.
- `Dict`: insertion-ordered dictionaries as sequences of pairs. Covers Python `dict.get`,
  assignment and dict comprehensions.
- `Text`: `str.split`, `str.split(sep, 1)`, `str.join` and `str.strip`.
- `Decimal`: `str(int)` and its inverse.
- `Codec`: `_parse_api_response` and `_construct_request_url`.
- `Const`: the `ENDPOINTS` id→name table, the `ENDPOINT_VALUE_MAPPING` code→label tables, the
  enumerations and the `get_values` translation.
- `Endpoints`: the five endpoint kinds and the controls the client writes through.
- `Registry`: registries, `_iterate`, sensor-id projection and lookup, and override-by-name
  composition of a derived registry.
- `Registries`: the static `SystemEndpoints`, `L1Endpoints` and `L2Endpoints` data and its
  invariants.
- `RegistrySets`: building a registry set.
- `RegistryFixtures`: the test registries and the room-sensor variants.
- `Client`: request, login, logout, `get_values`, `_update_values` and the three typed setters.
- `ClientFacts`: scenario properties of the client.

The model keeps these behaviours of the code:

- `_update_values` with a non-404 HTTP error reaches `return response` with `response` unbound.
  The model returns `Unbound("response")`; it does not propagate the original error.
- The int and float setters read the echo under the endpoint's sensor id. An empty echoed value
  counts as missing.
- The enum setter checks that every response id is present. It then compares only the value under
  the last response id. With no response ids at all, that comparison reads an unbound
  `result_value`.
- The int setter does no integer-valued or type check beyond the bounds.
- `get_values` renames keys through `ENDPOINTS` and values through `ENDPOINT_VALUE_MAPPING`. It does
  not parse typed values.
- The decoder drops blank segments and a single trailing NUL segment.

## Model

| member | source | states |
|---|---|---|
| Codec.ParseApiResponse | src/ouman_eh_800_api/client.py:47-69 | Text with no `?` is refused. Otherwise the prefix is exactly the text before the first `?`, and the values form a dictionary with distinct keys. |
| Codec.NonBlank | src/ouman_eh_800_api/client.py:50 | The kept segments are exactly the segments that are not blank or whitespace-only. |
| Codec.BlankSegmentDropped | src/ouman_eh_800_api/client.py:50 | A blank segment anywhere in the body contributes nothing. |
| Codec.NulSegmentIgnored | src/ouman_eh_800_api/client.py:52-54 | Dropping a final lone NUL segment changes no entry. |
| Codec.KeyValue | src/ouman_eh_800_api/client.py:58-60 | A segment yields a key/value pair exactly when it contains `=`. |
| Codec.SplitsAtFirstEquals | src/ouman_eh_800_api/client.py:59-60 | A segment splits at its first `=`, so the value may contain `=`. Key and value are stripped. |
| Codec.MalformedSegmentSkipped | src/ouman_eh_800_api/client.py:58-64 | A segment without `=` is skipped, and the entries around it are unchanged. |
| Codec.EntriesAppend | src/ouman_eh_800_api/client.py:57-64 | Segments are decoded independently: decoding a concatenation concatenates the entries. |
| Codec.ParsedValues | src/ouman_eh_800_api/client.py:56-60 | The value stored for a key is the one its last segment carries, so a later duplicate overwrites an earlier one. |
| Codec.EntriesOfFields | src/ouman_eh_800_api/client.py:57-60 | Well-formed `key=value` segments decode back to exactly their pairs, in order. |
| Codec.DecodeReply | src/ouman_eh_800_api/client.py:47-69 | Round trip: a reply written as `prefix?k=v;…;\0` from well-formed fields decodes to that prefix and those fields. |
| Codec.LoginErrorText | tests/test_client.py:129-133 | The encoded login refusal is the literal `login?result=error;\0`. |
| Codec.LoginErrorReply | tests/test_client.py:129-133 | `login?result=error;\0` decodes to prefix `login` and one entry. |
| Codec.ReadingReply | tests/test_client.py:124-128 | The 18-pair reading reply decodes to prefix `request` and its 18 entries. |
| Codec.ReadingKeysDistinct | tests/test_client.py:125 | The 18 keys of the reading reply are pairwise distinct. |
| Codec.RequestUrl | src/ouman_eh_800_api/client.py:71-86 | The target starts with `address/path?` and ends with `timestamp=`. |
| Codec.Entries | src/ouman_eh_800_api/client.py:57-64 | There are at most as many entries as segments, and each entry is the pair some segment yields. |
| Codec.RequestUrlParts | src/ouman_eh_800_api/client.py:71-86 | The target splits at its first `?` into `address/path` and a `;`-separated list. That list is the parameters followed by `timestamp=`, so a call without parameters still carries one. |
| Text.Split | src/ouman_eh_800_api/client.py:50 | Splitting gives pieces without the separator that join back to the input. |
| Text.Join | src/ouman_eh_800_api/client.py:85 | A non-empty join ends with its last part. |
| Text.SplitJoin | src/ouman_eh_800_api/client.py:85 | Joining separator-free pieces and splitting again gives back the pieces. |
| Text.SplitFirst | src/ouman_eh_800_api/client.py:49 | Splitting at the first separator fails exactly when the separator is absent. Otherwise the head holds no separator and head, separator and tail rebuild the input. |
| Text.Strip | src/ouman_eh_800_api/client.py:60 | The stripped text is a slice with only whitespace cut from both ends. It has no whitespace at either end, and it is empty exactly when the input is blank. |
| Dict.Get | src/ouman_eh_800_api/client.py:112 | Lookup misses exactly when the key is absent. A hit returns a value stored under that key. |
| Dict.Put | src/ouman_eh_800_api/client.py:60 | Assignment binds the key and leaves every other key's value alone. A new key goes last, and an existing key keeps its position. |
| Dict.PutAppends | src/ouman_eh_800_api/client.py:60 | Assigning a new key appends the pair. |
| Dict.FromPairs | src/ouman_eh_800_api/client.py:229 | A comprehension gives a dictionary whose keys are exactly the keys of the pairs. |
| Dict.GetFromPairs | src/ouman_eh_800_api/client.py:229 | In a comprehension the last pair for a key wins. |
| Dict.FromDistinctPairs | src/ouman_eh_800_api/client.py:229 | Pairs with distinct keys make a dictionary equal to the pairs themselves. |
| Dict.InverseRoundTrip | src/ouman_eh_800_api/const.py:61-87 | An injective table has an inverse table, and looking up either way agrees. |
| Decimal.IntToString | src/ouman_eh_800_api/client.py:167 | `str(int)` is non-empty and starts with `-` exactly for negative numbers. |
| Decimal.NatRoundTrip | src/ouman_eh_800_api/client.py:167 | The digits of a natural number read back as that number. |
| Decimal.IntRoundTrip | src/ouman_eh_800_api/client.py:167-176 | The decimal text of every integer parses back to that integer. |
| Decimal.IntToStringInjective | src/ouman_eh_800_api/client.py:167 | Two integers have the same decimal text exactly when they are equal. |
| Const.FromCode | src/ouman_eh_800_api/const.py:61-74 | A wire code that is recognised gives a value of the requested enumeration that has that code. |
| Const.CodeRoundTrip | src/ouman_eh_800_api/const.py:61-74 | Every enumeration value is recovered from its own wire code. |
| Const.EndpointNamesInjective | src/ouman_eh_800_api/const.py:1-59 | The 48 wire ids are distinct, and so are the 48 names they are renamed to. |
| Const.LabelTablesInjective | src/ouman_eh_800_api/const.py:61-87 | Both label tables have distinct codes and distinct labels. The L2 table is identical to the L1 table. |
| Const.LabelTablesCoverCodes | src/ouman_eh_800_api/const.py:62-74 | A code has a label exactly when it is a code of the matching enumeration. Operation mode code `4` has no label. |
| Const.LabelRoundTrip | src/ouman_eh_800_api/const.py:61-87 | Code→label and label→code agree in both directions for both tables. |
| Const.Rename | src/ouman_eh_800_api/client.py:133 | Unknown keys pass through unchanged. A known key is renamed to the name `ENDPOINTS` gives it. |
| Const.Decode | src/ouman_eh_800_api/client.py:133-135 | A value passes through unchanged when its key has no table or its code has no label. When the key's table labels the code, the label is shown instead. |
| Const.DecodeShowsLabel | src/ouman_eh_800_api/const.py:61-87 | Every operation mode is shown as its enumeration label under both mode ids, and every home/away setting under `S_135_85`. That label maps back to the value's code. |
| Const.Translate | src/ouman_eh_800_api/client.py:131-137 | The translation is a dictionary with no more entries than the response. Its keys are exactly the renamed response keys. |
| Const.KnownKeysRenameApart | src/ouman_eh_800_api/const.py:1-59 | Responses whose keys are all known ids never rename two keys to the same name. |
| Const.TranslateKeepsEveryKey | src/ouman_eh_800_api/client.py:131-137 | When no two keys rename alike, the translation has as many entries as the response. Each value appears, decoded, under the renamed key. |
| Endpoints.ControlsWellFormed | src/ouman_eh_800_api/endpoint.py:40-158 | Every control the client writes has min ≤ max. Its control id is its sensor id or `@_` plus the sensor id, and an enum control writes its own id and names a confirming id. |
| Endpoints.FineTuningBounds | src/ouman_eh_800_api/endpoint.py:122-139 | Both fine-tuning controls, the only float controls, accept exactly [-4.0, 4.0]. |
| Endpoints.HomeAwayConfirmation | src/ouman_eh_800_api/endpoint.py:151-158 | Home/away writes `S_135_85` and `S_222_85` but is confirmed on `S_222_85` alone, not on the id it is read from. |
| Registry.EndpointMembers | src/ouman_eh_800_api/registry.py:16-18 | Iteration keeps exactly the endpoint-valued members. |
| Registry.NonEndpointIgnored | src/ouman_eh_800_api/registry.py:16-18 | A member that is not an endpoint changes nothing in the iteration. |
| Registry.EndpointMembersAppend | src/ouman_eh_800_api/registry.py:16-18 | Iteration keeps declaration order across consecutive members. |
| Registry.OwnEndpoints | src/ouman_eh_800_api/registry.py:16-18 | A registry's own endpoints are exactly the endpoint values of its own members. |
| Registry.Declare | src/ouman_eh_800_api/registry.py:37-78 | A registry declared from names and endpoints binds those names and iterates those endpoints, in order. |
| Registry.DeclaredIterates | src/ouman_eh_800_api/registry.py:16-18 | A registry with no parent iterates exactly its declared endpoints. |
| Registry.SensorIds | src/ouman_eh_800_api/registry.py:22-24 | The sensor-id projection has one id per iterated endpoint. |
| Registry.SensorIdsAt | src/ouman_eh_800_api/registry.py:22-24 | Each projected id is the sensor id of the endpoint at the same position. |
| Registry.Lookup | src/ouman_eh_800_api/registry.py:28-34 | A lookup hit is an endpoint of the registry carrying the requested sensor id. Lookup misses exactly when no endpoint carries that id. |
| Registry.LookupInverts | src/ouman_eh_800_api/registry.py:28-34 | With distinct sensor ids, lookup returns each endpoint under its own id. |
| Registry.LaterEndpointWins | src/ouman_eh_800_api/registry.py:29 | The comprehension keeps the last endpoint with a given sensor id. |
| Registry.Find | tests/test_registry.py:51-64 | Finding a name fails exactly when it is not bound; a hit is a member with that name. |
| Registry.Override | tests/test_registry.py:221-231 | The member standing in a base member's place keeps the base member's name. |
| Registry.Additions | tests/test_registry.py:211-218 | The additions are exactly the derived members whose names the base does not bind. |
| Registry.Resolve | tests/test_registry.py:211-218 | Resolution has one member per base member plus one per addition. |
| Registry.ResolveAttrs | tests/test_registry.py:211-218 | A resolved registry names the base's members in base order, then the new ones. |
| Registry.ResolveDistinct | tests/test_registry.py:211-218 | Resolution binds each name once. |
| Registry.ResolveMembers | tests/test_registry.py:211-231 | A member is resolved exactly when the derived registry declares it, or the base declares it under a name the derived registry does not rebind. |
| Registry.ResolveSize | tests/test_registry.py:211-218 | Resolution keeps the base's size exactly when every derived name overrides a base name. Otherwise it grows. |
| Registry.ResolvedNamesDistinct | tests/test_registry.py:211-218 | In a well-formed chain, iteration yields each name once. |
| Registry.DerivedMembers | tests/test_registry.py:211-231 | A derived registry's iteration holds its own endpoints plus the inherited ones it does not rebind. |
| Registry.OverrideOne | tests/test_registry.py:234-248 | Overriding one base endpoint by name replaces it in place and leaves every other position alone. |
| Registry.OverrideDeclared | tests/test_registry.py:234-248 | A one-member derived registry over a declared base iterates the base's table with that one entry replaced. |
| Registry.IterateEndpoints | tests/test_registry.py:202-208 | A registry without a parent iterates exactly its own endpoints, in declaration order, so no more than it has own members. |
| Registry.IterateOf | tests/test_registry.py:211-231 | When every resolved member is an endpoint, iteration yields exactly their endpoints, in resolution order. |
| Registry.RootIterate | src/ouman_eh_800_api/registry.py:16-18 | A registry without a parent iterates its own endpoints. |
| Registries.SystemDistinct | src/ouman_eh_800_api/registry.py:37-78 | The system registry's sensor ids and names are pairwise distinct. |
| Registries.L1Distinct | src/ouman_eh_800_api/registry.py:81-239 | The L1 registry's sensor ids and names are pairwise distinct. |
| Registries.L2Distinct | src/ouman_eh_800_api/registry.py:243-389 | The L2 registry's sensor ids and names are pairwise distinct. |
| Registries.SystemL1Disjoint | src/ouman_eh_800_api/registry.py:37-239 | No system sensor id is an L1 sensor id. |
| Registries.SystemL2Disjoint | src/ouman_eh_800_api/registry.py:37-389 | No system sensor id is an L2 sensor id. |
| Registries.L1L2Disjoint | src/ouman_eh_800_api/registry.py:81-389 | No L1 sensor id is an L2 sensor id. |
| Registries.SoundLookup | src/ouman_eh_800_api/registry.py:22-34 | In a sound registry, lookup inverts the sensor-id projection. |
| Registries.DeclaredSound | src/ouman_eh_800_api/registry.py:14-34 | A table with distinct names, distinct sensor ids and ordered bounds declares a sound registry. |
| Registries.DeclaredDisjoint | src/ouman_eh_800_api/registry.py:14-34 | Tables with no sensor id in common declare disjoint registries. |
| Registries.SystemBoundsOrdered | src/ouman_eh_800_api/registry.py:38-45 | Every system endpoint has min ≤ max. |
| Registries.SystemEndpointsSound | src/ouman_eh_800_api/registry.py:37-78 | The system registry binds names once, has distinct sensor ids and has ordered bounds. |
| Registries.L1EndpointsSound | src/ouman_eh_800_api/registry.py:81-239 | The L1 registry binds names once, has distinct sensor ids and has ordered bounds. |
| Registries.L2EndpointsSound | src/ouman_eh_800_api/registry.py:243-389 | The L2 registry binds names once, has distinct sensor ids and has ordered bounds. |
| Registries.ConcreteRegistriesDisjoint | tests/test_registry.py:165-178 | System, L1 and L2 are pairwise disjoint in both orders. |
| Registries.L1DeclaresClientControls | src/ouman_eh_800_api/registry.py:82-179 | The L1 registry starts with exactly the eleven L1 controls the client writes through. |
| Registries.SystemDeclaresClientControls | src/ouman_eh_800_api/registry.py:38-54 | The system registry starts with exactly the two system controls the client writes through. |
| Registries.FineTuningNamedOnce | src/ouman_eh_800_api/registry.py:163-170 | Only the tenth L1 (and L2) endpoint carries the room temperature fine-tuning name. |
| RegistrySets.Duplicates | tests/test_registry.py:97-102 | The reported ids are exactly those occurring twice. The report is empty exactly when the ids are distinct. |
| RegistrySets.NewRegistrySet | tests/test_registry.py:72-110 | A repeated registry is refused first. A set is built exactly when registries and sensor ids are all distinct. Otherwise every shared id is reported. |
| RegistrySets.AllEndpoints | tests/test_registry.py:118-127 | The set's endpoints are exactly the union of its registries' endpoints. |
| RegistrySets.EndpointsIn | tests/test_registry.py:118-127 | The `endpoints` property holds exactly the endpoints of the set's registries. |
| RegistrySets.SensorIdsIn | tests/test_registry.py:130-139 | The `sensor_endpoint_ids` property has one id per endpoint of the set, each the sensor id of the endpoint at the same position. |
| RegistrySets.GetEndpoint | tests/test_registry.py:142-157 | A lookup hit is an endpoint of the set carrying the requested id. Lookup misses exactly when the id is not among the set's sensor ids. |
| RegistrySets.RepeatingRegistryRefused | tests/test_registry.py:97-102 | A set is refused whenever one of its registries reads some sensor id twice. |
| RegistrySets.RepeatingRegistryAmong | tests/test_registry.py:97-102 | A registry reading some sensor id twice makes the set refused wherever it stands among the others. |
| RegistrySets.SingleViews | tests/test_registry.py:151-157 | A set of one registry with distinct ids is accepted, and its lookup agrees with lookup in that registry's endpoints. |
| RegistrySets.AllEndpointsSize | tests/test_registry.py:80-86 | The set holds as many endpoints as its registries together. |
| RegistrySets.AcceptedLookup | tests/test_registry.py:142-148 | In a built set, lookup by sensor id returns the owning endpoint. |
| RegistrySets.PairAccepted | tests/test_registry.py:80-86 | Two distinct, sound, disjoint registries make a set. |
| RegistrySets.PairConflicts | tests/test_registry.py:97-102 | Two registries sharing a sensor id are refused, and that id is reported. |
| RegistrySets.SingleAccepted | tests/test_registry.py:72-77 | A sound registry alone makes a set of exactly its endpoints. |
| RegistrySets.RepeatedRefused | tests/test_registry.py:89-94 | A registry listed twice is refused as a duplicate, whatever its contents. |
| RegistrySets.EmptySet | tests/test_registry.py:105-110 | The empty set is accepted and has no endpoints. |
| RegistryFixtures.TestRegistriesIterate | tests/test_registry.py:202-208 | `TestRegistryA` iterates its two endpoints and `TestRegistryB` its one. |
| RegistryFixtures.SetABEndpoints | tests/test_registry.py:118-127 | The A+B set has exactly three endpoints. |
| RegistryFixtures.SetOfTwoTestRegistries | tests/test_registry.py:130-148 | The A+B set is accepted, its ids are the three test ids, and `S_TEST_1` finds `ENDPOINT_1`. |
| RegistryFixtures.ConflictingTestRegistriesRefused | tests/test_registry.py:97-102 | A with the conflicting registry is refused, reporting `S_TEST_1`. |
| RegistryFixtures.UnknownIdNotFound | tests/test_registry.py:151-157 | An unknown id finds nothing. |
| RegistryFixtures.ChildOwnEndpoints | tests/test_registry.py:51-64 | The child declares the overriding `ENDPOINT_1` and a new `ENDPOINT_4`. |
| RegistryFixtures.ChildResolves | tests/test_registry.py:211-218 | The child's names resolve to override, inherited, addition. |
| RegistryFixtures.ChildIteration | tests/test_registry.py:211-218 | The child iterates three endpoints: its `ENDPOINT_1`, the inherited `ENDPOINT_2` and its `ENDPOINT_4`. |
| RegistryFixtures.ChildKeepsInherited | tests/test_registry.py:211-218 | `ENDPOINT_2` and `ENDPOINT_4` are among the child's endpoints. |
| RegistryFixtures.ChildOverridesParent | tests/test_registry.py:221-227 | The child's `ENDPOINT_1` appears and the parent's does not. |
| RegistryFixtures.ChildOverrideSensorId | tests/test_registry.py:229-231 | The one endpoint named `test_endpoint_1_override` reads `S_TEST_1_OVERRIDE`. |
| RegistryFixtures.SystemAloneAccepted | tests/test_registry.py:72-77 | The system registry alone makes a non-empty set. |
| RegistryFixtures.SystemTwiceRefused | tests/test_registry.py:89-94 | The system registry twice is refused as a duplicate. |
| RegistryFixtures.SystemAndL1Accepted | tests/test_registry.py:165-171 | System with L1 makes a set containing the outside temperature and the L1 operation mode. |
| RegistryFixtures.L1AndL2Accepted | tests/test_registry.py:174-178 | L1 with L2 makes a set. |
| RegistryFixtures.L1RoomVariantIteration | tests/test_registry.py:234-248 | The L1 room-sensor variant iterates the L1 table with the tenth entry replaced by the `S_102_85` fine-tuning. |
| RegistryFixtures.L1RoomVariantTable | tests/test_registry.py:234-248 | The L1 room-sensor variant iterates exactly the L1 table updated at position 9. |
| RegistryFixtures.L2RoomVariantIteration | tests/test_registry.py:189-194 | The L2 room-sensor variant iterates the L2 table with the tenth entry replaced. |
| RegistryFixtures.L2RoomVariantTable | tests/test_registry.py:189-194 | The L2 room-sensor variant iterates exactly the L2 table updated at position 9. |
| RegistryFixtures.Names | tests/test_registry.py:237 | The name list has one name per endpoint, in order. |
| RegistryFixtures.VariantShapeFineTuning | tests/test_registry.py:239-248 | In any list shaped like the L1 variant, only the tenth entry carries the fine-tuning name, and it is the room-sensor one. |
| RegistryFixtures.VariantShapeReadings | tests/test_registry.py:259-263 | Any list shaped like the L1 variant names the room temperature, setpoint and potentiometer readings. |
| RegistryFixtures.L1RoomVariantFineTuning | tests/test_registry.py:234-248 | The variant has one fine-tuning endpoint. It reads `S_102_85` and differs from the base's. |
| RegistryFixtures.L1RoomVariantReadings | tests/test_registry.py:259-263 | The variant names room temperature, room temperature setpoint and the potentiometer. |
| RegistryFixtures.L1RoomVariantRepeatsId | tests/test_registry.py:234-248 | The L1 room-sensor variant reads `S_102_85` twice, as its overriding fine-tuning and as the inherited fine-tuning-with-sensor, so it is not sound. |
| RegistryFixtures.L2RoomVariantRepeatsId | tests/test_registry.py:189-194 | The L2 room-sensor variant reads `S_189_85` twice in the same way, so it is not sound. |
| RegistryFixtures.RoomVariantSetsRefused | tests/test_registry.py:181-194 | Every registry set listing a room-sensor variant is refused, including the system registry with the L1 variant. |
| RegistryFixtures.L1AndRoomVariantRefused | tests/test_registry.py:181-186 | L1 with its room-sensor variant is refused for conflicting ids. |
| RegistryFixtures.L2AndRoomVariantRefused | tests/test_registry.py:189-194 | L2 with its room-sensor variant is refused for conflicting ids. |
| Client.Answer | src/ouman_eh_800_api/client.py:88-105 | A reply below 400 with a `?` decodes. A timeout, a status of 400 or more (carrying the code) and a network failure each become a communication error. A reply without `?` is malformed. |
| Client.Request | src/ouman_eh_800_api/client.py:88-105 | A request consumes one outcome, records its call, and answers with that outcome. |
| Client.LoginVerdict | src/ouman_eh_800_api/client.py:112-119 | `result=ok` succeeds and `result=error` is an authentication error. Anything else is an unexpected-reply client error, and transport errors pass through. |
| Client.Login | src/ouman_eh_800_api/client.py:107-120 | Login sends `uid=…` and `pwd=…` in one request and is judged by the verdict on its answer. |
| Client.LogoutVerdict | src/ouman_eh_800_api/client.py:337-340 | Logout succeeds exactly on `result=ok`. |
| Client.Logout | src/ouman_eh_800_api/client.py:335-341 | Logout sends one parameterless request and is judged by its verdict. |
| Client.GetValues | src/ouman_eh_800_api/client.py:122-137 | One `request` call names every known id. It succeeds exactly when the answer decodes, with no more entries than the response, and passes errors through. |
| Client.UpdateParams | src/ouman_eh_800_api/client.py:148 | Parameters are `key=value`, one per entry, in dictionary order. |
| Client.UpdateValues | src/ouman_eh_800_api/client.py:144-158 | Without a 404 the update consumes one outcome, and a non-404 HTTP error becomes `Unbound("response")`. On a 404 it logs in once; a failed login ends there after two calls, otherwise it retries once and returns the retry's answer after three. |
| Client.ConsumedTwice | src/ouman_eh_800_api/client.py:150-157 | Consecutive requests compose: counts add up, earlier calls stay recorded, and the script moves on. |
| Client.SingleParam | src/ouman_eh_800_api/client.py:167 | A one-entry write sends exactly `key=value`. |
| Client.ConfirmNumber | src/ouman_eh_800_api/client.py:170-185 | A write is confirmed exactly when the echo is present, non-empty, numeric and equal to the expected value. Missing and non-numeric echoes each have their own error, and a numeric echo of another value is a mismatch. |
| Client.SetInt | src/ouman_eh_800_api/client.py:160-187 | Out of bounds fails with no request. In bounds it writes `controlId=str(value)` once and succeeds exactly when the update succeeds and the sensor id echoes the value. A failed update's error is returned unchanged. After a successful update, every failure is a client error, and a missing echo is `ValueMissing`. |
| Client.SetFloat | src/ouman_eh_800_api/client.py:189-220 | The same as the int setter, but the value is checked in bounds before rounding. It writes the rounded value and is confirmed against the rounded value. A failed update's error is returned unchanged. After a successful update, every failure is a client error. |
| Client.EnumWrite | src/ouman_eh_800_api/client.py:229 | The write binds exactly the control ids, all to the value's code. |
| Client.ScanResponses | src/ouman_eh_800_api/client.py:232-236 | The scan passes exactly when every response id is present and non-empty. It leaves the last id's value, or the prior value when there are none. |
| Client.ConfirmEnum | src/ouman_eh_800_api/client.py:232-241 | Confirmation needs every response id present and the last one equal to the code. A missing id is `ValueMissing`, no ids at all is `Unbound("result_value")`, and a last value other than the code is `ValueMismatch`. |
| Client.SetEnum | src/ouman_eh_800_api/client.py:222-242 | A value of the wrong enumeration fails with no request. Otherwise it writes every control id once and is confirmed as the enum confirmation says. A failed update's error is returned unchanged. After a successful update, every failure is a client error or `Unbound("result_value")`, and each of missing, mismatch and unbound arises exactly in its own case. |
| ClientFacts.AnswerOfReply | src/ouman_eh_800_api/client.py:88-99 | A successful well-formed reply answers with exactly its prefix and fields. |
| ClientFacts.ResultReplyAnswer | src/ouman_eh_800_api/client.py:112 | A `prefix?result=x;\0` reply decodes with `result` equal to `x`. |
| ClientFacts.LoginAccepted | tests/test_client.py:64-72 | `login?result=ok;\0` logs in. |
| ClientFacts.LoginRefused | tests/test_client.py:75-84 | `login?result=error;\0` is an authentication error. |
| ClientFacts.LoginTimedOut | tests/test_client.py:87-92 | A timed-out login is a communication error. |
| ClientFacts.LoginWithoutResult | src/ouman_eh_800_api/client.py:116-119 | A login reply without `result` is an unexpected-reply client error. |
| ClientFacts.LogoutReplies | src/ouman_eh_800_api/client.py:337-340 | Logout succeeds exactly on `result=ok`, and any other result is an unexpected-reply error. |
| ClientFacts.LoginTarget | src/ouman_eh_800_api/client.py:71-86 | The login target is `address/login?uid=u;pwd=p;ts=`. |
| ClientFacts.LogoutTarget | src/ouman_eh_800_api/client.py:71-86 | The logout target is `address/logout?ts=`. |
| ClientFacts.LoginLogoutTargets | tests/test_client.py:23-27 | The login target is `address/login?uid=u;pwd=p;ts=` and the logout target is `address/logout?ts=`. |
| ClientFacts.NoRetryWithoutNotFound | src/ouman_eh_800_api/client.py:151-154 | Without a 404 there is no login and no retry. A transport failure is re-raised, and another HTTP error leaves `response` unbound. |
| ClientFacts.ExpiredSessionRenewed | src/ouman_eh_800_api/client.py:154-158 | After a 404 and a successful login, the result is the answer to the third request, and exactly three outcomes are consumed. |
| ClientFacts.RenewedCalls | src/ouman_eh_800_api/client.py:150-157 | After a 404 and a successful login, the three calls are update, login, then the same update. |
| ClientFacts.ExpiredSessionCalls | src/ouman_eh_800_api/client.py:154-157 | The three calls are update, login, then the same update. |
| ClientFacts.NoSecondRetry | src/ouman_eh_800_api/client.py:157 | A second 404 after re-login propagates with no further retry. |
| ClientFacts.RenewalRefused | src/ouman_eh_800_api/client.py:156 | A refused re-login propagates the authentication error after two calls. |
| ClientFacts.EchoConfirmsInt | src/ouman_eh_800_api/client.py:167-187 | An echo of the written integer confirms the write after one request. |
| ClientFacts.OtherEchoRefused | src/ouman_eh_800_api/client.py:182-185 | An echo of another integer is a mismatch. |
| ClientFacts.IntFirstCall | src/ouman_eh_800_api/client.py:167-168 | An in-range int write starts with `update` of `controlId=str(value)`. |
| ClientFacts.FloatFirstCall | src/ouman_eh_800_api/client.py:199-201 | An in-range float write starts with `update` of `controlId=str(round(value, 1))`. |
| ClientFacts.CurveWrite | src/ouman_eh_800_api/client.py:264-268 | Setting the -20 °C curve point to 45 sends `@_S_61_85=45`. |
| ClientFacts.CurveOutOfRange | src/ouman_eh_800_api/client.py:163-166 | 100 and -1 are refused for a curve point with no request. |
| ClientFacts.FineTuningRounds | src/ouman_eh_800_api/client.py:199-200 | Fine-tuning writes `@_S_134_85=` followed by the rounded value. |
| ClientFacts.FineTuningRangeBeforeRounding | src/ouman_eh_800_api/client.py:195-200 | 4.04 is refused with no request, although it rounds to 4.0. |
| ClientFacts.EnumWritesEveryControlId | src/ouman_eh_800_api/client.py:229 | With distinct control ids, every control id is written with the code, in order. |
| ClientFacts.HomeAwayWritesBoth | src/ouman_eh_800_api/endpoint.py:151-158 | Home/away writes `S_135_85=code` and then `S_222_85=code`. |
| ClientFacts.HomeAwayConfirmedBySecondId | src/ouman_eh_800_api/client.py:232-241 | Home/away is confirmed exactly when `S_222_85` echoes the code. |
| ClientFacts.EnumComparesLastOnly | src/ouman_eh_800_api/client.py:232-241 | Only the last response id is compared: `[a, b]` is confirmed while `[b, a]` is a mismatch for the same reply. |
| ClientFacts.WrongEnumRefused | src/ouman_eh_800_api/client.py:225-228 | A home/away value for the operation mode, or the reverse, is a type error with no request. |
| ClientFacts.GetValuesShowsEveryReading | src/ouman_eh_800_api/client.py:131-137 | When renaming keeps keys apart, every reading appears, decoded, under its renamed key. |

## Left out

- The transport (aiohttp session, `asyncio.timeout(10)`, `raise_for_status`, `response.text()`) becomes a scripted sequence of outcomes. An exhausted script answers as a timeout. A failure of `response.text()` is not modelled.
- URL percent-encoding of the request target is left to the HTTP library and not modelled.
- The timestamp is an opaque string parameter. `formatdate` and the clock are not modelled.
- Python `float()`, `round(value, 1)` and `str(float)` are parameters (`Client.Numerics`). No specific rounding result is proved.
- Client.GetValues: returns the translated dictionary. The source only logs it (with `json.dumps`) and returns None, and the warning about missing keys is logging only.
- Logging throughout is left out.
- The thin `set_*` wrappers only bind an endpoint to a setter. They are covered by the setters together with the endpoint constants.
- The `NotImplementedError` stubs, `get_alarms` (one verbatim request), `lru_cache` and the package's re-exports are not modelled.
- The bare-string response id tuples in registry.py would iterate characters. The client imports endpoint.py's lists, so the model uses those and does not model character iteration.
- `OumanRegistrySet`, `iterate_endpoints` and the room-sensor variants do not appear in the version of registry.py this model follows. They are modelled from the tests as base members overridden by name, plus additions.
- RegistryFixtures.L1RoomVariantIteration: the reconstructed variant overrides the fine-tuning endpoint and keeps the base's 21 endpoints. The test expects strictly more endpoints than the base, which this reconstruction does not meet. The room readings it names are already in the base L1 registry.
- RegistryFixtures.RoomVariantSetsRefused: the room-sensor variants reuse a sensor id the base already reads. The L1 variant's fine-tuning reads `S_102_85`, which the inherited fine-tuning-with-sensor also reads; the L2 variant does the same with `S_189_85`. So each variant reads one id twice (RegistryFixtures.L1RoomVariantRepeatsId, RegistryFixtures.L2RoomVariantRepeatsId), and every registry set that lists a variant is refused, even the system registry with the L1 variant. Only what the tests assert about the variants is pinned down.
- The `OperationMode` and `HomeAwayControl` enumerations are imported but not defined in the version of const.py this model follows. Their wire codes follow the label tables.
- The client tests' HTTP mocking setup is not modelled. Its logout-failure test mocks the login address, so it never reaches the `result != ok` branch.
- Unit and text conversion of typed values (`parse_value`) does not appear in the code and is not modelled.
