# Uponor attribute-protocol client, modelled in Dafny

This project models `UponorHTTPClient`. It is the client that an Uponor
Smatrix/Sky thermostat integration uses to talk to the controller's JNAP
attribute protocol. The controller exposes a flat namespace of string
attributes. The client does four things:

- It reads all attributes with `GetAttributes` and flattens the response's
  `output.vars` into an insertion-ordered `Map`.
- It derives one thermostat record per composite key `C{c}_T{t}`, built
  from the leftmost occurrence of `cust_C<digits>_T<digits>_name` in each
  attribute key. Several attribute keys can build the same composite key;
  the last of them wins. The record's fields come from the sibling
  attributes `C{c}_T{t}_room_temperature`, `_setpoint`, `_minimum_setpoint`
  and `_maximum_setpoint`.
- It converts readings in tenths of a degree Fahrenheit to degrees Celsius
  with one decimal.
- It writes a set point as integer tenths of a degree Fahrenheit with
  `SetAttributes`.

The network is a parameter. The decoded body of each response the
controller sends is an input value (`AttributesResponse`). Each request's
variables are returned as an output. A promise becomes a `Settled` value:
`Resolved`, or `Rejected` with the response's `result`.

Files:

- `ordered_map.dfy`: a JavaScript `Map` as a sequence of entries. `set`
  replaces an existing key where it stands and appends a new key at the end.
  It also covers a map built by a sequence of optional `set` calls, where
  each key ends up with the value of the last call that set it. Also holds
  `Option`.
- `decimal.dfy`: `\d`, `parseInt` on digits, `toString` on integers, and
  `parseFloat` on the integer texts the model admits.
- `key_pattern.dfy`: `regex.exec` for `/cust_C(\d+)_T(\d+)_name/`. It is
  proved sound and complete against a reference definition: the pattern
  occurs at a position, and the leftmost occurrence wins.
- `temperature.dfy`: the helper `round`, `_formatTemperature`, and the
  Celsius-to-raw conversion of `setTargetTemperature`, all in exact
  integer arithmetic.
- `uponor_client.dfy`: the records, the flattening, the derivation, key
  lookup, and the class `UponorHTTPClient` with its two fields, which are
  updated in place. The derivation is one step per attribute, as the
  `forEach` callback does it, replayed on an empty map.

Across the client's own methods the class keeps the invariant `Valid()`:
the thermostat map is the map derived from the attribute map.
`syncAttributes` replaces both together. A rejected read leaves both
untouched.

Temperatures are integers in tenths of a degree:

- `_formatTemperature` on raw text `r` gives the tenth of a degree Celsius
  nearest `(r - 320) * 5 / 90`.
- `setTargetTemperature` for `c / 10` °C sends the integer nearest
  `(9c + 1600) / 5`.

Neither quantity is ever exactly halfway between two integers. So
`Math.round`'s half-up rule and a half-away-from-zero rule agree on every
input, and writing a set point then reading it back gives the same value.

Behaviour this model takes from the code:

- A missing or empty sibling attribute reads as `"0"`, i.e. -17.8 °C. It is
  never absent and never an error.
- Raw values are tenths of a degree Fahrenheit. So 215 reads as -5.8 °C and
  230 as -5.0 °C.
- 22.0 °C is sent as `"716"`.
- A thermostat exists for a key `C{c}_T{t}` exactly when some attribute key's
  LEFTMOST occurrence of the pattern captured `c` and `t`. Further
  occurrences in the same attribute key are ignored.
- Captures are the raw digit strings. `cust_C01_T2_name` gives the key
  `C01_T2`, which `getThermostat(1, 2)` cannot find.
- Controller and thermostat numbers are whatever `parseInt` gives, zero
  included.
- On duplicate names in a read response the later value wins. A key keeps the
  position of its first appearance.

## Model

| member | source | states |
|---|---|---|
| OrderedMaps.OrderedMap.Get | lib/UponorHTTPClient.ts:43 | `Map.get`: none exactly when the key is absent, otherwise the value stored with it |
| OrderedMaps.OrderedMap.Put | lib/UponorHTTPClient.ts:82 | `Map.set`: keys distinct afterwards; the key maps to the new value and no other lookup changes; an existing key keeps its position, a new one is appended |
| OrderedMaps.Empty | lib/UponorHTTPClient.ts:30-31 | `new Map()` has no keys |
| OrderedMaps.Replay | lib/UponorHTTPClient.ts:90-92 | a map built from `new Map()` by a sequence of optional `set` calls never holds a key twice |
| OrderedMaps.LastSet | lib/UponorHTTPClient.ts:92-149 | reference definition: the value of the last call that sets a key, none exactly when no call sets it |
| OrderedMaps.ReplayGet | lib/UponorHTTPClient.ts:92-149 | looking a key up after the calls gives the value of the last call that set it |
| OrderedMaps.LastSetStable | lib/UponorHTTPClient.ts:92-149 | calls that set other keys do not change the last value set for a key |
| OrderedMaps.ReplayKeys | lib/UponorHTTPClient.ts:92-149 | the keys after the calls are exactly the keys some call sets |
| OrderedMaps.ReplayLast | lib/UponorHTTPClient.ts:92-149 | a key holds the value of the last call that sets it |
| OrderedMaps.ReplayEntries | lib/UponorHTTPClient.ts:92-149 | every entry of the map is the key and value of some call |
| Decimal.ParseNat | lib/UponorHTTPClient.ts:141-142 | `parseInt` of a digit string is zero exactly when every digit is `0`; with `ParseNatToString` it inverts `toString` |
| Decimal.ParseFloat | lib/UponorHTTPClient.ts:179 | `parseFloat` of an admitted text is negative only after a leading minus and non-negative without one; with `ParseFloatToString` it inverts `toString` |
| Decimal.NatToString | lib/UponorHTTPClient.ts:156 | `toString` of a natural writes digits without a superfluous leading zero |
| Decimal.IntToString | lib/UponorHTTPClient.ts:156 | `toString` of an integer: a minus sign exactly when negative, then canonical digits |
| Decimal.ParseNatToString | lib/UponorHTTPClient.ts:141-142 | `parseInt` of the digits `toString` writes gives back the number |
| Decimal.NatToStringParse | lib/UponorHTTPClient.ts:141-142 | a canonical digit string is exactly what `toString` writes for its parsed value |
| Decimal.ParseFloatToString | lib/UponorHTTPClient.ts:156 | `parseFloat` of the text `toString` writes for an integer gives back that integer |
| Decimal.NotCanonicalNeverWritten | lib/UponorHTTPClient.ts:184-185 | a digit string with a leading zero is never the text of an integer |
| KeyPattern.DigitRun | lib/UponorHTTPClient.ts:93 | `\d+` at a position takes the maximal run of digits there |
| KeyPattern.MatchAt | lib/UponorHTTPClient.ts:93-94 | a match at a position has two non-empty digit captures |
| KeyPattern.FirstMatch | lib/UponorHTTPClient.ts:93-97 | `exec` returns non-empty all-digit captures, or null |
| KeyPattern.MatchAtIff | lib/UponorHTTPClient.ts:93-94 | the pattern matches at position p with captures c and t if and only if `cust_C{c}_T{t}_name` occurs at p with digit captures |
| KeyPattern.FirstMatchSound | lib/UponorHTTPClient.ts:93-97 | what `exec` returns are the captures of an occurrence, and no occurrence starts further left |
| KeyPattern.FirstMatchComplete | lib/UponorHTTPClient.ts:93-97 | a key containing the pattern always matches, with the captures of the leftmost occurrence |
| KeyPattern.FirstMatchAt | lib/UponorHTTPClient.ts:93-94 | a match at a position with no match to its left is what `exec` returns |
| KeyPattern.NoOccurrenceNoMatch | lib/UponorHTTPClient.ts:94-95 | a key with no occurrence of the pattern gives no match |
| KeyPattern.NoPrefixNoMatch | lib/UponorHTTPClient.ts:93-95 | a key without the literal `cust_C` gives no match |
| Temperature.MathRound | lib/UponorHTTPClient.ts:191 | `Math.round(num/den)` is the integer nearest num/den, halves rounded up |
| Temperature.Round | lib/UponorHTTPClient.ts:189-192 | `round(value, precision)` is the multiple of 10^-precision nearest the value |
| Temperature.CelsiusTenths | lib/UponorHTTPClient.ts:179-181 | a raw reading converts to the tenth of a degree Celsius within 4/9 of a tenth of the exact value |
| Temperature.RawSetPoint | lib/UponorHTTPClient.ts:155-156 | a Celsius value converts to the raw tenths of Fahrenheit within 2/5 of the exact value |
| Temperature.FormatTemperature | lib/UponorHTTPClient.ts:178-182 | integer text converts by `CelsiusTenths`; other non-empty text is outside the model |
| Temperature.CelsiusTenthsNearest | lib/UponorHTTPClient.ts:179-181 | the converted reading is the only tenth that close to the exact value |
| Temperature.MissingReadsAsZero | lib/UponorHTTPClient.ts:179 | an undefined or empty attribute reads as -17.8 °C |
| Temperature.FormatWritten | lib/UponorHTTPClient.ts:178-182 | the text `toString` writes for a raw value reads back as that value's conversion |
| Temperature.SetPointRoundTrip | lib/UponorHTTPClient.ts:155-156 | converting Celsius to raw and back gives the original tenths |
| Temperature.WriteReadRoundTrip | lib/UponorHTTPClient.ts:155-156 | the text sent for c/10 °C, read by `_formatTemperature`, is c/10 °C |
| Temperature.ReadWriteRead | lib/UponorHTTPClient.ts:178-182 | re-writing a converted reading moves the raw value by at most one, and it reads the same again |
| Temperature.TwentyTwoDegrees | lib/UponorHTTPClient.ts:155-156 | 22.0 °C is sent as "716" |
| Temperature.LowReadings | lib/UponorHTTPClient.ts:179-181 | raw 215 reads as -5.8 °C and raw 230 as -5.0 °C |
| UponorClient.Flatten | lib/UponorHTTPClient.ts:80-85 | the flattened attribute map never holds a name twice |
| UponorClient.FlattenKeys | lib/UponorHTTPClient.ts:80-83 | the attribute keys are exactly the variable names of the response |
| UponorClient.FlattenLastWins | lib/UponorHTTPClient.ts:80-83 | each name maps to the value of its last variable: on duplicates the later entry wins |
| UponorClient.FlattenOrder | lib/UponorHTTPClient.ts:80-83 | keys are ordered by the first appearance of their names |
| UponorClient.FlattenDistinct | lib/UponorHTTPClient.ts:80-83 | with no repeated name the map holds the variables as pairs, in order |
| UponorClient.Derive | lib/UponorHTTPClient.ts:88-152 | the derived thermostat map has distinct keys |
| UponorClient.CreateKey | lib/UponorHTTPClient.ts:184-186 | `_createKey` writes `C`, the controller part, `_T` and the thermostat part: the key starts with `C` and is three characters longer than the parts; `CreateKeyInjective` shows the parts can be read back |
| UponorClient.NumericKey | lib/UponorHTTPClient.ts:51 | the key `getThermostat(c, t)` builds has the `C<digits>_T<digits>` shape of a derived key exactly when neither number is negative |
| UponorClient.TextKeyShape | lib/UponorHTTPClient.ts:184-186 | the key of two integer texts has the digit shape if and only if neither integer is negative |
| UponorClient.NumericKeyInjective | lib/UponorHTTPClient.ts:51 | distinct pairs of numbers give distinct lookup keys |
| UponorClient.NameKeyRoundTrip | lib/UponorHTTPClient.ts:93-98 | the name attribute `cust_C{c}_T{t}_name` of non-negative numbers names exactly the key `getThermostat(c, t)` looks up |
| UponorClient.ThermostatKeyOfShape | lib/UponorHTTPClient.ts:93-98 | the composite key an attribute key names is always `C<digits>_T<digits>` |
| UponorClient.NegativeNeverFound | lib/UponorHTTPClient.ts:50-53 | no attributes at all give a record under the key of a negative controller or thermostat number |
| UponorClient.BuildThermostat | lib/UponorHTTPClient.ts:138-147 | the record built for a match carries the composite key as id, the attribute's value as name, the `parseInt` of the captures as numbers, the converted sibling attributes of that key as temperatures, and mode auto |
| UponorClient.StepOf | lib/UponorHTTPClient.ts:93-98 | the callback acts on an attribute exactly when the pattern matches its key; it then sets the key the captures build to a record of that key named by the attribute's value |
| UponorClient.VisitAttribute | lib/UponorHTTPClient.ts:92-149 | the `forEach` callback on the i-th attribute performs the i-th step: it sets the record of the matched key, or leaves the map alone |
| UponorClient.DeriveKeys | lib/UponorHTTPClient.ts:92-98 | a thermostat key is present if and only if some attribute key's match builds it |
| UponorClient.DeriveNoMatch | lib/UponorHTTPClient.ts:90-95 | attributes with no matching key give an empty map, not an error |
| UponorClient.DeriveRecord | lib/UponorHTTPClient.ts:138-147 | the record stored under a key is the one built from the last attribute naming that key: it has that key as id, that attribute's value as name, the parsed captures as numbers, the converted siblings as temperatures, and mode auto |
| UponorClient.DeriveRecords | lib/UponorHTTPClient.ts:138-148 | every derived record is a record of the key it is stored under |
| UponorClient.DeriveGet | lib/UponorHTTPClient.ts:138-147 | a record found under a key is a record of that key |
| UponorClient.CreateKeyInjective | lib/UponorHTTPClient.ts:184-186 | for parts without `_`, the composite key determines both parts |
| UponorClient.NumericKeyFound | lib/UponorHTTPClient.ts:50-53 | `getThermostat(c, t)` can find a record if and only if some attribute key's match captured exactly the digits `toString` writes for c and t |
| UponorClient.NumericKeyOf | lib/UponorHTTPClient.ts:50-53 | an attribute key names the thermostat `getThermostat(c, t)` looks up if and only if its captures are the decimal texts of c and t |
| UponorClient.LeadingZeroUnreachable | lib/UponorHTTPClient.ts:96-98 | a key built from captures with a leading zero is never the key `getThermostat` looks up |
| UponorClient.SetPointReadBack | lib/UponorHTTPClient.ts:143-144 | a set point reported as the text written for x/10 °C reads back as x/10 °C on the record found under the same numbers |
| UponorClient.RequestFlattensBack | lib/UponorHTTPClient.ts:166 | the variables sent for a map, flattened as a read response is, give the map back |
| UponorClient.UponorHTTPClient.constructor | lib/UponorHTTPClient.ts:33-35 | the URL is `http://{ip}/JNAP/`; both maps start empty and the invariant holds |
| UponorClient.UponorHTTPClient.GetAttributes | lib/UponorHTTPClient.ts:38-40 | returns the current attribute map |
| UponorClient.UponorHTTPClient.GetAttribute | lib/UponorHTTPClient.ts:42-44 | undefined exactly when the name is absent, otherwise the stored value |
| UponorClient.UponorHTTPClient.GetThermostats | lib/UponorHTTPClient.ts:46-48 | returns the map derived from the current attributes |
| UponorClient.UponorHTTPClient.GetThermostat | lib/UponorHTTPClient.ts:50-53 | the entry under `C{c}_T{t}`; any record found has that key as id and its converted siblings as temperatures; nothing is found for a negative number |
| UponorClient.UponorHTTPClient.SyncAttributes | lib/UponorHTTPClient.ts:55-58 | on OK both maps are replaced, the thermostats derived from the new attributes; otherwise it rejects with the result and nothing changes |
| UponorClient.ReadAttributes | lib/UponorHTTPClient.ts:69-86 | rejects with the result unless it is OK, else gives the flattened variables |
| UponorClient.DeriveThermostats | lib/UponorHTTPClient.ts:88-152 | the `forEach` loop builds exactly the derived thermostat map |
| UponorClient.UponorHTTPClient.SetTargetTemperature | lib/UponorHTTPClient.ts:154-158 | sends one variable `C{c}_T{t}_setpoint` whose value is exactly the `toString()` text of the raw set point, which parses back to it and reads back as the value written; rejects unless OK |
| UponorClient.UponorHTTPClient.SetAttributes | lib/UponorHTTPClient.ts:165-176 | one variable per map entry in order, which flattens back to the map; rejects unless OK |
| UponorClient.ExampleSync | lib/UponorHTTPClient.ts:138-148 | a response naming `C1_T2` with raw readings 706 and 716 gives a record of 21.4 °C and 22.0 °C, and -17.8 °C for the missing limits |

## Left out

- HTTP transport is not modelled: `fetch`, the `x-jnap-action` headers and JSON encoding. Responses are inputs and request variables are outputs.
- `testConnection` is left out. It only checks the HTTP status of a network call.
- `setMode` is left out. Its body is empty, and the mode, alarm and valve attributes named in comments are not implemented.
- Floating point is not modelled. Readings are integer texts (`-?\d+`); any other text becomes `OutsideModel` rather than `parseFloat`'s result.
- Controller and thermostat numbers are modelled as integers. Non-integer or very large doubles, whose `toString` differs, are left out.
- UponorClient.UponorHTTPClient.SetTargetTemperature: takes the Celsius value as integer tenths. It does not cover arbitrary doubles, and it does not model float error in `value * 9 / 5`, which cannot move a result that is never within 0.1 of a tie.
- Thermostat fields typed `number | undefined` are modelled without `undefined`, because the code never stores it.
- `getAttributes()` and `getThermostats()` return the client's internal `Map` objects, so a caller can mutate them. This aliasing is not modelled: the getters return values, and `Valid()` is proved across the client's own methods only.
- Promise scheduling and overlapping calls are not modelled. Each operation runs to completion before the next.
- `drivers/uponor/device.ts`, `drivers/uponor/driver.ts` and `app.ts` are not part of this model. They are platform glue around `syncAttributes`, `getThermostat` and `getThermostats`; nothing calls `setTargetTemperature`. The ids that `drivers/uponor/device.ts` passes to `getThermostat` come from `thermostat.controller_id` and `thermostat.thermostat_id` in `drivers/uponor/driver.ts`, fields the `Thermostat` type does not have. So the lookup key is `Cundefined_Tundefined`, which does not have the `C<digits>_T<digits>` shape that `ThermostatKeyOfShape` proves for every derived key.
- Address updates, a diagnostic dump and the device availability state machine do not exist in this client and are not modelled.
