/**
 * The attribute-protocol client `UponorHTTPClient`. The network is
 * abstracted: the decoded body of each response the controller sends is a
 * parameter, and the variables of each request body the client sends are
 * returned.
 */
module UponorClient {
  import opened Optional
  import opened OrderedMaps
  import opened Decimal
  import opened Temperature
  import opened KeyPattern

  datatype Mode = Auto | Heat | Cool | Off

  /** One thermostat as derived from the attributes. */
  datatype Thermostat = Thermostat(
    id: string,
    controllerID: nat,
    thermostatID: nat,
    name: string,
    temperature: Temp,
    setPoint: Temp,
    minimumSetPoint: Temp,
    maximumSetPoint: Temp,
    mode: Mode)

  /** One `{waspVarName, waspVarValue}` element of a request or a response. */
  datatype Var = Var(waspVarName: string, waspVarValue: string)

  /** The decoded JSON body of a response: `result` and, for a read, `output.vars`. */
  datatype AttributesResponse = AttributesResponse(result: string, vars: seq<Var>)

  /** How a promise settles: resolved with a value, or rejected with the response's `result`. */
  datatype Settled<T> = Resolved(value: T) | Rejected(reason: string)

  type Attributes = OrderedMap<string, string>
  type Thermostats = OrderedMap<string, Thermostat>

  /** `_createKey`: the composite key `C{controller}_T{thermostat}`. */
  function CreateKey(controllerID: string, thermostatID: string): (k: string)
    ensures |k| == |controllerID| + |thermostatID| + 3 && k[0] == 'C'
  {
    "C" + controllerID + "_T" + thermostatID
  }

  /** The key `_createKey` builds from two numbers, as `getThermostat` and `setTargetTemperature` do. */
  function NumericKey(controllerID: int, thermostatID: int): (k: string)
    ensures ThermostatKeyShape(k) <==> controllerID >= 0 && thermostatID >= 0
  {
    TextKeyShape(controllerID, thermostatID);
    CreateKey(IntToString(controllerID), IntToString(thermostatID))
  }

  /** The key of two integer texts has the digit shape exactly when neither integer is negative. */
  lemma TextKeyShape(c: int, t: int)
    ensures ThermostatKeyShape(CreateKey(IntToString(c), IntToString(t))) <==> c >= 0 && t >= 0
  {
    var cs, ts := IntToString(c), IntToString(t);
    if c >= 0 && t >= 0 {
      assert |cs| > 0 && AllDigits(cs) && |ts| > 0 && AllDigits(ts);
    }
    if ThermostatKeyShape(CreateKey(cs, ts)) {
      var c', t' :| |c'| > 0 && AllDigits(c') && |t'| > 0 && AllDigits(t') && CreateKey(cs, ts) == CreateKey(c', t');
      CreateKeyInjective(c', t', cs, ts);
      assert IsDigit(cs[0]) && IsDigit(ts[0]);
    }
  }

  /** A composite key of two non-empty digit runs, `C<digits>_T<digits>`. */
  ghost predicate ThermostatKeyShape(k: string) {
    exists c, t :: |c| > 0 && AllDigits(c) && |t| > 0 && AllDigits(t) && k == CreateKey(c, t)
  }

  /** The thermostat key an attribute key names, when the name pattern matches it. */
  function ThermostatKeyOf(attrKey: string): Option<string> {
    match FirstMatch(attrKey)
    case None => None
    case Some(m) => Some(CreateKey(m.controller, m.thermostat))
  }

  // ---------------------------------------------------------------------
  // Flattening a read response

  /** The attribute map `_syncAttributes` builds: `result.set(name, value)` for each variable in order. */
  function Flatten(vars: seq<Var>): (m: Attributes)
    ensures m.Valid()
  {
    if vars == [] then Empty()
    else
      var last := vars[|vars| - 1];
      Flatten(vars[..|vars| - 1]).Put(last.waspVarName, last.waspVarValue)
  }

  /** The names the variables carry. */
  function Names(vars: seq<Var>): set<string> {
    set i | 0 <= i < |vars| :: vars[i].waspVarName
  }

  lemma NamesSnoc(vars: seq<Var>)
    requires vars != []
    ensures Names(vars) == Names(vars[..|vars| - 1]) + {vars[|vars| - 1].waspVarName}
  {
    var init := vars[..|vars| - 1];
    forall x | x in Names(vars) ensures x in Names(init) + {vars[|vars| - 1].waspVarName} {
      var i :| 0 <= i < |vars| && vars[i].waspVarName == x;
      if i < |init| { assert init[i] == vars[i]; }
    }
    forall x | x in Names(init) ensures x in Names(vars) {
      var i :| 0 <= i < |init| && init[i].waspVarName == x;
      assert vars[i] == init[i];
    }
  }

  /** Every variable name is a key of the flattened map, and nothing else is. */
  lemma {:induction false} FlattenKeys(vars: seq<Var>)
    ensures Flatten(vars).Keys() == Names(vars)
  {
    if vars != [] {
      var init := vars[..|vars| - 1];
      var last := vars[|vars| - 1];
      FlattenKeys(init);
      NamesSnoc(vars);
      assert Flatten(vars) == Flatten(init).Put(last.waspVarName, last.waspVarValue);
    }
  }

  /** A name maps to the value of its LAST variable: on duplicate names the later entry wins. */
  lemma {:induction false} FlattenLastWins(vars: seq<Var>, i: nat)
    requires i < |vars|
    requires forall j :: i < j < |vars| ==> vars[j].waspVarName != vars[i].waspVarName
    ensures Flatten(vars).Get(vars[i].waspVarName) == Some(vars[i].waspVarValue)
  {
    if i < |vars| - 1 {
      var init := vars[..|vars| - 1];
      assert init[i] == vars[i];
      FlattenLastWins(init, i);
    }
  }

  /** The variables as name/value pairs, in their order. */
  function Pairs(vars: seq<Var>): (ps: seq<(string, string)>)
    ensures |ps| == |vars|
    ensures forall i :: 0 <= i < |vars| ==> ps[i] == (vars[i].waspVarName, vars[i].waspVarValue)
  {
    if vars == [] then []
    else
      var last := vars[|vars| - 1];
      Pairs(vars[..|vars| - 1]) + [(last.waspVarName, last.waspVarValue)]
  }

  /** With no name repeated, the attribute map holds the variables in their order. */
  lemma {:induction false} FlattenDistinct(vars: seq<Var>)
    requires forall i, j :: 0 <= i < j < |vars| ==> vars[i].waspVarName != vars[j].waspVarName
    ensures Flatten(vars).entries == Pairs(vars)
  {
    if vars != [] {
      var init := vars[..|vars| - 1];
      var last := vars[|vars| - 1];
      FlattenDistinct(init);
      FlattenKeys(init);
      assert last.waspVarName !in Names(init);
      assert Flatten(vars) == Flatten(init).Put(last.waspVarName, last.waspVarValue);
    }
  }

  /** The keys appear in the order their names first appear among the variables. */
  lemma {:induction false} FlattenOrder(vars: seq<Var>, a: nat, b: nat)
    requires a < b < |Flatten(vars).entries|
    ensures FirstIndex(vars, Flatten(vars).entries[a].0) < FirstIndex(vars, Flatten(vars).entries[b].0)
  {
    var init := vars[..|vars| - 1];
    var last := vars[|vars| - 1];
    var m := Flatten(init);
    assert Flatten(vars) == m.Put(last.waspVarName, last.waspVarValue);
    FlattenKeys(init);
    var x, y := Flatten(vars).entries[a].0, Flatten(vars).entries[b].0;
    assert x == m.entries[a].0 && x in Names(init);
    FirstIndexPrefix(vars, x);
    if b < |m.entries| {
      assert y == m.entries[b].0 && y in Names(init);
      FlattenOrder(init, a, b);
      FirstIndexPrefix(vars, y);
    } else {
      FirstIndexFresh(vars);
    }
  }

  /** Reference definition: where `name` first appears among the variables (|vars| when it does not). */
  function FirstIndex(vars: seq<Var>, name: string): (i: nat)
    ensures i <= |vars|
    ensures i < |vars| ==> vars[i].waspVarName == name
    ensures forall j :: 0 <= j < i ==> vars[j].waspVarName != name
  {
    if vars == [] then 0
    else if vars[0].waspVarName == name then 0
    else 1 + FirstIndex(vars[1..], name)
  }

  lemma FirstIndexPrefix(vars: seq<Var>, name: string)
    requires vars != []
    requires name in Names(vars[..|vars| - 1])
    ensures FirstIndex(vars, name) == FirstIndex(vars[..|vars| - 1], name) < |vars| - 1
  {
    var init := vars[..|vars| - 1];
    var k :| 0 <= k < |vars| - 1 && vars[k].waspVarName == name;
    assert init[k] == vars[k];
  }

  /** A name no earlier variable carries first appears at the last variable. */
  lemma FirstIndexFresh(vars: seq<Var>)
    requires vars != []
    requires vars[|vars| - 1].waspVarName !in Names(vars[..|vars| - 1])
    ensures FirstIndex(vars, vars[|vars| - 1].waspVarName) == |vars| - 1
  {
    var init := vars[..|vars| - 1];
    assert forall j :: 0 <= j < |init| ==> init[j] == vars[j];
  }

  // ---------------------------------------------------------------------
  // Deriving thermostats

  /** The record `_syncThermostats` stores for a match `m` whose name attribute has value `name`. */
  function BuildThermostat(attrs: Attributes, m: KeyMatch, name: string): (t: Thermostat)
    requires AllDigits(m.controller) && AllDigits(m.thermostat)
    ensures RecordOf(attrs, CreateKey(m.controller, m.thermostat), t)
    ensures t.name == name
    ensures t.controllerID == ParseNat(m.controller) && t.thermostatID == ParseNat(m.thermostat)
  {
    var key := CreateKey(m.controller, m.thermostat);
    Thermostat(
      id := key,
      controllerID := ParseNat(m.controller),
      thermostatID := ParseNat(m.thermostat),
      name := name,
      temperature := FormatTemperature(attrs.Get(key + "_room_temperature")),
      setPoint := FormatTemperature(attrs.Get(key + "_setpoint")),
      minimumSetPoint := FormatTemperature(attrs.Get(key + "_minimum_setpoint")),
      maximumSetPoint := FormatTemperature(attrs.Get(key + "_maximum_setpoint")),
      mode := Auto)
  }

  /** What one attribute contributes: the thermostat key it names and the record built for it. */
  type Step = Option<(string, Thermostat)>

  /** The body of the `forEach` callback for one attribute. */
  function StepOf(attrs: Attributes, entry: (string, string)): (s: Step)
    ensures s.None? <==> ThermostatKeyOf(entry.0).None?
    ensures s.Some? ==> ThermostatKeyOf(entry.0) == Some(s.value.0)
    ensures s.Some? ==> RecordOf(attrs, s.value.0, s.value.1) && s.value.1.name == entry.1
  {
    match FirstMatch(entry.0)
    case None => None
    case Some(m) => Some((CreateKey(m.controller, m.thermostat), BuildThermostat(attrs, m, entry.1)))
  }

  /** The callback as a function value. */
  function StepFn(attrs: Attributes): ((string, string)) -> Step {
    entry => StepOf(attrs, entry)
  }

  /** The step of every attribute, in the map's order. */
  function Steps(attrs: Attributes): (ss: seq<Step>)
    ensures |ss| == |attrs.entries|
  {
    MapSeq(attrs.entries, StepFn(attrs))
  }

  /** The `i`-th step is the callback's effect for the `i`-th attribute. */
  lemma StepAt(attrs: Attributes, i: nat)
    requires i < |attrs.entries|
    ensures Steps(attrs)[i] == StepOf(attrs, attrs.entries[i])
  {
    MapSeqAt(attrs.entries, StepFn(attrs), i);
  }

  /**
   * The `forEach` callback of `_syncThermostats` on one attribute: when its
   * key matches the name pattern, sets the record built from the captures.
   * The ghost `i` is the attribute's position, used only by the proof.
   */
  method VisitAttribute(attrs: Attributes, ts: Thermostats, key: string, value: string, ghost i: nat)
    returns (ts': Thermostats)
    requires i < |attrs.entries| && attrs.entries[i] == (key, value)
    ensures ts' == Apply(ts, Steps(attrs)[i])
  {
    StepAt(attrs, i);
    ts' := ts;
    var matches := FirstMatch(key);
    if matches.Some? {
      var ctKey := CreateKey(matches.value.controller, matches.value.thermostat);
      ts' := ts'.Put(ctKey, BuildThermostat(attrs, matches.value, value));
    }
  }

  /**
   * `_syncThermostats()` on the attributes `getAttributes()` returns: one
   * record per attribute key that matches the name pattern.
   */
  method DeriveThermostats(attrs: Attributes) returns (ts: Thermostats)
    ensures ts == Derive(attrs)
  {
    ts := Empty();
    for i := 0 to |attrs.entries|
      invariant ts == Replay(Steps(attrs), i)
    {
      var (key, value) := attrs.entries[i];
      ts := VisitAttribute(attrs, ts, key, value, i);
    }
  }

  /** The thermostat map `_syncThermostats` derives from the attributes. */
  function Derive(attrs: Attributes): (ts: Thermostats)
    ensures ts.Valid()
  {
    Replay(Steps(attrs), |attrs.entries|)
  }

  /**
   * The thermostat map has a key exactly when some attribute key matches the
   * name pattern and its captures build that key.
   */
  lemma DeriveKeys(attrs: Attributes, k: string)
    ensures k in Derive(attrs).Keys() <==>
              exists i :: 0 <= i < |attrs.entries| && ThermostatKeyOf(attrs.entries[i].0) == Some(k)
  {
    var steps := Steps(attrs);
    ReplayKeys(steps, |steps|, k);
    forall i | 0 <= i < |attrs.entries|
      ensures Sets(steps[i], k) <==> ThermostatKeyOf(attrs.entries[i].0) == Some(k)
    {
      StepAt(attrs, i);
    }
  }

  /** Attributes none of whose keys match give an empty thermostat map, not an error. */
  lemma DeriveNoMatch(attrs: Attributes)
    requires forall i :: 0 <= i < |attrs.entries| ==> FirstMatch(attrs.entries[i].0).None?
    ensures Derive(attrs).entries == []
  {
    var ts := Derive(attrs);
    if ts.entries != [] {
      DeriveKeys(attrs, ts.entries[0].0);
    }
  }

  /**
   * The record stored for the LAST attribute that names a thermostat key:
   * its id is the key, its name that attribute's value, its numbers the
   * parsed captures, its temperatures the converted sibling attributes,
   * and its mode `auto`.
   */
  lemma DeriveRecord(attrs: Attributes, i: nat)
    requires i < |attrs.entries|
    requires FirstMatch(attrs.entries[i].0).Some?
    requires forall j :: i < j < |attrs.entries| ==>
               ThermostatKeyOf(attrs.entries[j].0) != ThermostatKeyOf(attrs.entries[i].0)
    ensures var m := FirstMatch(attrs.entries[i].0).value;
            var k := CreateKey(m.controller, m.thermostat);
            var r := Derive(attrs).Get(k);
            && r == Some(BuildThermostat(attrs, m, attrs.entries[i].1))
            && r.value.id == k
            && r.value.name == attrs.entries[i].1
            && r.value.controllerID == ParseNat(m.controller)
            && r.value.thermostatID == ParseNat(m.thermostat)
            && r.value.temperature == FormatTemperature(attrs.Get(k + "_room_temperature"))
            && r.value.setPoint == FormatTemperature(attrs.Get(k + "_setpoint"))
            && r.value.minimumSetPoint == FormatTemperature(attrs.Get(k + "_minimum_setpoint"))
            && r.value.maximumSetPoint == FormatTemperature(attrs.Get(k + "_maximum_setpoint"))
            && r.value.mode == Auto
  {
    var m := FirstMatch(attrs.entries[i].0).value;
    var k := CreateKey(m.controller, m.thermostat);
    var steps := Steps(attrs);
    StepAt(attrs, i);
    assert steps[i] == Some((k, BuildThermostat(attrs, m, attrs.entries[i].1)));
    forall j | i < j < |steps| ensures !Sets(steps[j], k) {
      StepAt(attrs, j);
    }
    ReplayLast(steps, |steps|, i, k, BuildThermostat(attrs, m, attrs.entries[i].1));
  }

  /**
   * What a record stored under `k` holds whatever attribute named it: `k`
   * as its id, the converted sibling attributes of `k` as its temperatures,
   * and mode `auto`.
   */
  ghost predicate RecordOf(attrs: Attributes, k: string, t: Thermostat) {
    && t.id == k
    && t.temperature == FormatTemperature(attrs.Get(k + "_room_temperature"))
    && t.setPoint == FormatTemperature(attrs.Get(k + "_setpoint"))
    && t.minimumSetPoint == FormatTemperature(attrs.Get(k + "_minimum_setpoint"))
    && t.maximumSetPoint == FormatTemperature(attrs.Get(k + "_maximum_setpoint"))
    && t.mode == Auto
  }

  /** Every entry of `ts` is a record of its own key. */
  ghost predicate RecordsOfKeys(attrs: Attributes, ts: Thermostats) {
    forall i :: 0 <= i < |ts.entries| ==> RecordOf(attrs, ts.entries[i].0, ts.entries[i].1)
  }

  /** Each derived record is a record of the key it is stored under. */
  lemma DeriveRecords(attrs: Attributes)
    ensures RecordsOfKeys(attrs, Derive(attrs))
  {
    var steps := Steps(attrs);
    var ts := Derive(attrs);
    forall e | 0 <= e < |ts.entries| ensures RecordOf(attrs, ts.entries[e].0, ts.entries[e].1) {
      ReplayEntries(steps, |steps|, e);
      var j :| 0 <= j < |steps| && steps[j] == Some(ts.entries[e]);
      StepAt(attrs, j);
    }
  }

  /** A record found under `k` is a record of `k`. */
  lemma DeriveGet(attrs: Attributes, k: string)
    requires Derive(attrs).Get(k).Some?
    ensures RecordOf(attrs, k, Derive(attrs).Get(k).value)
  {
    DeriveRecords(attrs);
  }

  // ---------------------------------------------------------------------
  // Keys and lookup

  /** Digit strings (and integer texts) contain no `_`, so a composite key determines its parts. */
  lemma CreateKeyInjective(c1: string, t1: string, c2: string, t2: string)
    requires forall i :: 0 <= i < |c1| ==> c1[i] != '_'
    requires forall i :: 0 <= i < |c2| ==> c2[i] != '_'
    requires CreateKey(c1, t1) == CreateKey(c2, t2)
    ensures c1 == c2 && t1 == t2
  {
    var k := CreateKey(c1, t1);
    assert k[1 + |c1|] == '_';
    assert k[1 + |c2|] == '_';
    assert c1 == k[1..1 + |c1|];
    assert c2 == k[1..1 + |c2|];
    assert t1 == k[3 + |c1|..];
    assert t2 == k[3 + |c2|..];
  }

  /**
   * `getThermostat(c, t)` finds a record exactly when some attribute key's
   * match captured the digits `toString` writes for c and t.
   */
  lemma NumericKeyFound(attrs: Attributes, c: int, t: int)
    ensures NumericKey(c, t) in Derive(attrs).Keys() <==>
              exists i :: 0 <= i < |attrs.entries| &&
                          FirstMatch(attrs.entries[i].0) == Some(KeyMatch(IntToString(c), IntToString(t)))
  {
    DeriveKeys(attrs, NumericKey(c, t));
    forall i | 0 <= i < |attrs.entries|
      ensures ThermostatKeyOf(attrs.entries[i].0) == Some(NumericKey(c, t)) <==>
              FirstMatch(attrs.entries[i].0) == Some(KeyMatch(IntToString(c), IntToString(t)))
    {
      NumericKeyOf(attrs.entries[i].0, c, t);
    }
  }

  /** An attribute key names the thermostat of `getThermostat(c, t)` exactly when it captures the decimal texts of c and t. */
  lemma NumericKeyOf(key: string, c: int, t: int)
    ensures ThermostatKeyOf(key) == Some(NumericKey(c, t)) <==>
              FirstMatch(key) == Some(KeyMatch(IntToString(c), IntToString(t)))
  {
    if ThermostatKeyOf(key) == Some(NumericKey(c, t)) {
      var m := FirstMatch(key).value;
      CreateKeyInjective(m.controller, m.thermostat, IntToString(c), IntToString(t));
    }
  }

  /** A key named by an attribute is always `C<digits>_T<digits>`. */
  lemma ThermostatKeyOfShape(attrKey: string)
    requires ThermostatKeyOf(attrKey).Some?
    ensures ThermostatKeyShape(ThermostatKeyOf(attrKey).value)
  {
    var m := FirstMatch(attrKey).value;
    assert ThermostatKeyOf(attrKey).value == CreateKey(m.controller, m.thermostat);
  }

  /** `getThermostat(c, t)` finds nothing when either number is negative. */
  lemma NegativeNeverFound(attrs: Attributes, c: int, t: int)
    requires c < 0 || t < 0
    ensures NumericKey(c, t) !in Derive(attrs).Keys()
  {
    DeriveKeys(attrs, NumericKey(c, t));
    forall i | 0 <= i < |attrs.entries| ensures ThermostatKeyOf(attrs.entries[i].0) != Some(NumericKey(c, t)) {
      if ThermostatKeyOf(attrs.entries[i].0).Some? {
        ThermostatKeyOfShape(attrs.entries[i].0);
      }
    }
  }

  /** Distinct pairs of numbers give distinct keys: `toString` of an integer is read back by `parseFloat`. */
  lemma NumericKeyInjective(c1: int, t1: int, c2: int, t2: int)
    requires NumericKey(c1, t1) == NumericKey(c2, t2)
    ensures c1 == c2 && t1 == t2
  {
    CreateKeyInjective(IntToString(c1), IntToString(t1), IntToString(c2), IntToString(t2));
    ParseFloatToString(c1);
    ParseFloatToString(c2);
    ParseFloatToString(t1);
    ParseFloatToString(t2);
  }

  /**
   * The name attribute `cust_C{c}_T{t}_name` of a thermostat with
   * non-negative numbers names the key `getThermostat(c, t)` looks up.
   */
  lemma NameKeyRoundTrip(c: int, t: int)
    requires c >= 0 && t >= 0
    ensures ThermostatKeyOf(PatternText(IntToString(c), IntToString(t))) == Some(NumericKey(c, t))
  {
    var key := PatternText(IntToString(c), IntToString(t));
    assert PatternAt(key, 0, IntToString(c), IntToString(t)) by { assert key[0..|key|] == key; }
    FirstMatchComplete(key, 0, IntToString(c), IntToString(t));
  }

  /**
   * A capture with a leading zero (`cust_C01_T2_name` gives `C01_T2`) builds
   * a key that `getThermostat` can never look up, whatever numbers it is given.
   */
  lemma LeadingZeroUnreachable(m: KeyMatch, c: int, t: int)
    requires |m.controller| > 0 && AllDigits(m.controller)
    requires |m.thermostat| > 0 && AllDigits(m.thermostat)
    requires !Canonical(m.controller) || !Canonical(m.thermostat)
    ensures NumericKey(c, t) != CreateKey(m.controller, m.thermostat)
  {
    if NumericKey(c, t) == CreateKey(m.controller, m.thermostat) {
      CreateKeyInjective(IntToString(c), IntToString(t), m.controller, m.thermostat);
      assert false;
    }
  }

  /** `_syncAttributes()` given the read response: reject unless `OK`, else flatten `output.vars`. */
  method ReadAttributes(response: AttributesResponse) returns (r: Settled<Attributes>)
    ensures response.result != "OK" ==> r == Rejected(response.result)
    ensures response.result == "OK" ==> r == Resolved(Flatten(response.vars))
  {
    if response.result != "OK" {
      return Rejected(response.result);
    }
    var vars := response.vars;
    var result: Attributes := Empty();
    for i := 0 to |vars|
      invariant result == Flatten(vars[..i])
    {
      assert vars[..i + 1][..i] == vars[..i];
      result := result.Put(vars[i].waspVarName, vars[i].waspVarValue);
    }
    assert vars[..|vars|] == vars;
    r := Resolved(result);
  }

  /**
   * A set point the controller reports as the text `setTargetTemperature`
   * wrote for x / 10 degrees Celsius is read back, on the record found
   * under the same numbers, as x / 10 degrees Celsius.
   */
  lemma SetPointReadBack(attrs: Attributes, c: int, t: int, x: int)
    requires Derive(attrs).Get(NumericKey(c, t)).Some?
    requires attrs.Get(NumericKey(c, t) + "_setpoint") == Some(IntToString(RawSetPoint(x)))
    ensures Derive(attrs).Get(NumericKey(c, t)).value.setPoint == Celsius(x)
  {
    DeriveGet(attrs, NumericKey(c, t));
    WriteReadRoundTrip(x);
  }

  // ---------------------------------------------------------------------
  // The client

  class UponorHTTPClient {
    const url: string
    var attributes: Attributes
    var thermostats: Thermostats

    /** The thermostats are always those derived from the attributes: the two are replaced together. */
    ghost predicate Valid()
      reads this
    {
      attributes.Valid() && thermostats == Derive(attributes)
    }

    constructor(ipAddress: string)
      ensures Valid()
      ensures url == "http://" + ipAddress + "/JNAP/"
      ensures attributes.entries == [] && thermostats.entries == []
    {
      url := "http://" + ipAddress + "/JNAP/";
      attributes := Empty();
      thermostats := Empty();
    }

    /** `getAttributes()`: the attribute map as last synchronised. */
    method GetAttributes() returns (r: Attributes)
      requires Valid()
      ensures r == attributes && r.Valid()
    {
      r := attributes;
    }

    /** `getAttribute(name)`: the value stored under `name`, undefined when there is none. */
    method GetAttribute(name: string) returns (r: Option<string>)
      requires Valid()
      ensures r.None? <==> name !in attributes.Keys()
      ensures r.Some? ==> (name, r.value) in attributes.entries
    {
      r := attributes.Get(name);
    }

    /** `getThermostats()`: the map derived from the current attributes. */
    method GetThermostats() returns (r: Thermostats)
      requires Valid()
      ensures r == Derive(attributes)
    {
      r := thermostats;
    }

    /** `getThermostat(c, t)`: the entry stored under `_createKey(c, t)`. */
    method GetThermostat(controllerID: int, thermostatID: int) returns (r: Option<Thermostat>)
      requires Valid()
      ensures r == Derive(attributes).Get(NumericKey(controllerID, thermostatID))
      ensures r.Some? ==> RecordOf(attributes, NumericKey(controllerID, thermostatID), r.value)
      ensures controllerID < 0 || thermostatID < 0 ==> r.None?
    {
      var ctKey := CreateKey(IntToString(controllerID), IntToString(thermostatID));
      r := thermostats.Get(ctKey);
      if r.Some? {
        DeriveGet(attributes, ctKey);
        if controllerID < 0 || thermostatID < 0 {
          NegativeNeverFound(attributes, controllerID, thermostatID);
        }
      }
    }

    /**
     * `syncAttributes()` given the controller's read response: on `OK` both
     * maps are replaced, the thermostats derived from the new attributes;
     * otherwise it rejects with the response's result and nothing changes.
     */
    method SyncAttributes(response: AttributesResponse) returns (outcome: Settled<()>)
      requires Valid()
      modifies this
      ensures Valid()
      ensures response.result != "OK" ==>
                outcome == Rejected(response.result) &&
                attributes == old(attributes) && thermostats == old(thermostats)
      ensures response.result == "OK" ==>
                outcome == Resolved(()) &&
                attributes == Flatten(response.vars) && thermostats == Derive(attributes)
    {
      var read := ReadAttributes(response);
      if read.Rejected? {
        return Rejected(read.reason);
      }
      attributes := read.value;
      thermostats := DeriveThermostats(attributes);
      outcome := Resolved(());
    }

    /**
     * `setTargetTemperature(c, t, value)` for value = celsiusTenths / 10
     * degrees, given the write response: sends the one variable
     * `C{c}_T{t}_setpoint` whose value is the rounded tenths of a degree
     * Fahrenheit, and rejects unless the response is `OK`.
     */
    method SetTargetTemperature(controllerID: int, thermostatID: int, celsiusTenths: int,
                                response: AttributesResponse)
      returns (request: seq<Var>, outcome: Settled<()>)
      ensures |request| == 1
      ensures request[0].waspVarName == NumericKey(controllerID, thermostatID) + "_setpoint"
      ensures request[0].waspVarValue == IntToString(RawSetPoint(celsiusTenths))
      ensures ParseFloat(request[0].waspVarValue) == Some(RawSetPoint(celsiusTenths))
      ensures FormatTemperature(Some(request[0].waspVarValue)) == Celsius(celsiusTenths)
      ensures outcome == if response.result == "OK" then Resolved(()) else Rejected(response.result)
    {
      var setPoint := IntToString(RawSetPoint(celsiusTenths));
      var key := "C" + IntToString(controllerID) + "_T" + IntToString(thermostatID) + "_setpoint";
      request, outcome := SetAttributes(Empty<string, string>().Put(key, setPoint), response);
      ParseFloatToString(RawSetPoint(celsiusTenths));
      WriteReadRoundTrip(celsiusTenths);
    }

    /** `_setAttributes(attributes)`: one variable per entry, in order; rejects unless `OK`. */
    method SetAttributes(attrs: Attributes, response: AttributesResponse)
      returns (request: seq<Var>, outcome: Settled<()>)
      ensures |request| == |attrs.entries|
      ensures forall i :: 0 <= i < |request| ==>
                request[i] == Var(attrs.entries[i].0, attrs.entries[i].1)
      ensures attrs.Valid() ==> Flatten(request) == attrs
      ensures outcome == if response.result == "OK" then Resolved(()) else Rejected(response.result)
    {
      request := seq(|attrs.entries|, i requires 0 <= i < |attrs.entries| =>
                       Var(attrs.entries[i].0, attrs.entries[i].1));
      if attrs.Valid() {
        RequestFlattensBack(attrs, request);
      }
      if response.result != "OK" {
        return request, Rejected(response.result);
      }
      outcome := Resolved(());
    }
  }

  /**
   * The variables `_setAttributes` sends for a map, flattened the way a
   * read response is, give that map back.
   */
  lemma RequestFlattensBack(attrs: Attributes, request: seq<Var>)
    requires attrs.Valid()
    requires |request| == |attrs.entries|
    requires forall i :: 0 <= i < |request| ==> request[i] == Var(attrs.entries[i].0, attrs.entries[i].1)
    ensures Flatten(request) == attrs
  {
    FlattenDistinct(request);
    assert Flatten(request).entries == attrs.entries;
  }

  // ---------------------------------------------------------------------
  // A worked example

  /**
   * A read response naming one thermostat, with a room temperature of
   * 70.6 degrees Fahrenheit and a set point of 71.6: the record under
   * `C1_T2` reads 21.4 and 22.0 degrees Celsius, and its missing limits
   * read -17.8.
   */
  lemma ExampleSync(vars: seq<Var>)
    requires vars == [Var("cust_C1_T2_name", "Living Room"),
                      Var("C1_T2_room_temperature", "706"),
                      Var("C1_T2_setpoint", "716")]
    ensures Derive(Flatten(vars)).Get(NumericKey(1, 2)) ==
              Some(Thermostat("C1_T2", 1, 2, "Living Room", Celsius(214), Celsius(220),
                              Celsius(-178), Celsius(-178), Auto))
  {
    var attrs := Flatten(vars);
    assert |vars[0].waspVarName| == 15 && |vars[1].waspVarName| == 22 && |vars[2].waspVarName| == 14;
    FlattenDistinct(vars);
    PairsOfThree(vars[0], vars[1], vars[2]);
    assert vars == [vars[0], vars[1], vars[2]];
    assert attrs.entries == [("cust_C1_T2_name", "Living Room"),
                             ("C1_T2_room_temperature", "706"),
                             ("C1_T2_setpoint", "716")];
    ExampleNameKey(attrs.entries[0].0);
    RoomTemperatureKeyNoMatch(attrs.entries[1].0);
    SetPointKeyNoMatch(attrs.entries[2].0);
    ExampleIds();
    OneNamedThermostat(attrs, KeyMatch("1", "2"));
    var k := CreateKey("1", "2");
    FormatExample(attrs, k);
    var r := Derive(attrs).Get(k);
    assert r.Some?;
    assert r.value.id == "C1_T2" && r.value.name == "Living Room";
    assert r.value.controllerID == 1 && r.value.thermostatID == 2;
    assert r.value.temperature == Celsius(214) && r.value.setPoint == Celsius(220);
    assert r.value.minimumSetPoint == Celsius(-178) && r.value.maximumSetPoint == Celsius(-178);
  }

  /** Three attributes of which only the first names a thermostat: its record is built from the first. */
  lemma OneNamedThermostat(attrs: Attributes, m: KeyMatch)
    requires |attrs.entries| == 3
    requires FirstMatch(attrs.entries[0].0) == Some(m)
    requires FirstMatch(attrs.entries[1].0).None? && FirstMatch(attrs.entries[2].0).None?
    ensures Derive(attrs).Get(CreateKey(m.controller, m.thermostat)) ==
              Some(BuildThermostat(attrs, m, attrs.entries[0].1))
  {
    assert ThermostatKeyOf(attrs.entries[1].0).None? && ThermostatKeyOf(attrs.entries[2].0).None?;
    assert ThermostatKeyOf(attrs.entries[0].0).Some?;
    DeriveRecord(attrs, 0);
  }

  /** The example's reading keys name no thermostat. */
  lemma RoomTemperatureKeyNoMatch(k: string)
    requires k == "C1_T2_room_temperature"
    ensures FirstMatch(k).None?
  {
    NoLowerCNoMatch(k);
  }

  lemma SetPointKeyNoMatch(k: string)
    requires k == "C1_T2_setpoint"
    ensures FirstMatch(k).None?
  {
    NoLowerCNoMatch(k);
  }

  /** The example thermostat's key and numeric identifiers. */
  lemma ExampleIds()
    ensures NumericKey(1, 2) == CreateKey("1", "2") == "C1_T2"
    ensures ParseNat("1") == 1 && ParseNat("2") == 2
  {
  }

  lemma ExampleNameKey(k0: string)
    requires k0 == "cust_C1_T2_name"
    ensures FirstMatch(k0) == Some(KeyMatch("1", "2"))
  {
    assert PatternAt(k0, 0, "1", "2") by { assert k0[0..|k0|] == PatternText("1", "2"); }
    FirstMatchComplete(k0, 0, "1", "2");
  }

  lemma PairsOfThree(a: Var, b: Var, c: Var)
    ensures Pairs([a, b, c]) == [(a.waspVarName, a.waspVarValue), (b.waspVarName, b.waspVarValue),
                                 (c.waspVarName, c.waspVarValue)]
  {
    assert [a, b, c][..2] == [a, b] && [a, b][..1] == [a] && [a][..0] == [];
    assert Pairs([a]) == [(a.waspVarName, a.waspVarValue)];
    assert Pairs([a, b]) == [(a.waspVarName, a.waspVarValue), (b.waspVarName, b.waspVarValue)];
  }

  lemma NoLowerCNoMatch(key: string)
    requires forall i :: 0 <= i < |key| ==> key[i] != 'c'
    ensures FirstMatch(key).None?
  {
    forall p | 0 <= p <= |key| ensures !HasAt(key, p, "cust_C") {
      if p + 6 <= |key| {
        assert key[p..p + 6][0] == key[p];
      }
    }
    NoPrefixNoMatch(key);
  }

  /** The three-digit readings of the example. */
  lemma ParseExample()
    ensures ParseFloat("706") == Some(706) && ParseFloat("716") == Some(716)
  {
    assert AllDigits("706") && AllDigits("716");
    assert "706"[..2] == "70" && "70"[..1] == "7" && "7"[..0] == "";
    assert "716"[..2] == "71" && "71"[..1] == "7";
  }

  /** The example's sibling lookups: two readings present, both limits missing. */
  lemma ExampleLookups(attrs: Attributes)
    requires attrs.entries == [("cust_C1_T2_name", "Living Room"),
                               ("C1_T2_room_temperature", "706"),
                               ("C1_T2_setpoint", "716")]
    ensures attrs.Get("C1_T2_room_temperature") == Some("706")
    ensures attrs.Get("C1_T2_setpoint") == Some("716")
    ensures attrs.Get("C1_T2_minimum_setpoint") == None
    ensures attrs.Get("C1_T2_maximum_setpoint") == None
  {
    var k0, k1, k2 := "cust_C1_T2_name", "C1_T2_room_temperature", "C1_T2_setpoint";
    assert |k0| == 15 && |k1| == 22 && |k2| == 14;
    assert attrs.Valid();
    assert attrs.entries[1].0 == k1 && attrs.entries[2].0 == k2;
    var lo, hi := "C1_T2_minimum_setpoint", "C1_T2_maximum_setpoint";
    assert |lo| == 22 && |hi| == 22 && lo[6] != k1[6] && hi[6] != k1[6];
    assert lo !in attrs.Keys() && hi !in attrs.Keys();
  }

  lemma ExampleSiblingKeys(k: string)
    requires k == "C1_T2"
    ensures k + "_room_temperature" == "C1_T2_room_temperature"
    ensures k + "_setpoint" == "C1_T2_setpoint"
    ensures k + "_minimum_setpoint" == "C1_T2_minimum_setpoint"
    ensures k + "_maximum_setpoint" == "C1_T2_maximum_setpoint"
  {
  }

  lemma FormatExample(attrs: Attributes, k: string)
    requires attrs.entries == [("cust_C1_T2_name", "Living Room"),
                               ("C1_T2_room_temperature", "706"),
                               ("C1_T2_setpoint", "716")]
    requires k == "C1_T2"
    ensures FormatTemperature(attrs.Get(k + "_room_temperature")) == Celsius(214)
    ensures FormatTemperature(attrs.Get(k + "_setpoint")) == Celsius(220)
    ensures FormatTemperature(attrs.Get(k + "_minimum_setpoint")) == Celsius(-178)
    ensures FormatTemperature(attrs.Get(k + "_maximum_setpoint")) == Celsius(-178)
  {
    ExampleSiblingKeys(k);
    ExampleLookups(attrs);
    ParseExample();
    CelsiusTenthsNearest(706, 214);
    CelsiusTenthsNearest(716, 220);
    MissingReadsAsZero();
  }
}
