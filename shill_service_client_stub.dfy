/** The in-memory stand-in for the Shill connection manager's service
    interface: a dictionary from service path to that service's property
    dictionary, which the client's requests read and change. Calls on the
    manager stub and the property-changed notifications the stub posts are
    recorded in two logs. */
module ShillServiceClientStub {
  import opened Wrappers

  /** base::Value, as far as the stub uses it: list, double, binary and null
      values are not modelled. */
  datatype Value =
    | StringValue(s: string)
    | IntegerValue(i: int)
    | BooleanValue(b: bool)
    | DictionaryValue(entries: map<string, Value>)

  type Dictionary = map<string, Value>

  /** Property names and values from Shill's service constants. */
  const kStateProperty := "State"
  const kStateOnline := "online"
  const kStatePortal := "portal"
  const kPassphraseProperty := "Passphrase"
  const kProfileProperty := "Profile"
  const kSSIDProperty := "SSID"
  const kNameProperty := "Name"
  const kTypeProperty := "Type"
  const kIPConfigProperty := "IPConfig"

  datatype DBusMethodCallStatus = DBUS_METHOD_CALL_FAILURE | DBUS_METHOD_CALL_SUCCESS

  /** Calls on the manager stub's test interface. */
  datatype ManagerCall =
    | AddManagerService(servicePath: string, addToVisibleList: bool, addToWatchList: bool)
    | RemoveManagerService(servicePath: string)
    | MoveServiceToIndex(servicePath: string, index: nat, addToWatchList: bool)
    | ClearManagerServices

  /** A posted NotifyObserversPropertyChanged task. */
  datatype PropertyChange = PropertyChange(servicePath: string, property: string)

  // ---------------------------------------------------------------------
  // Dictionary access

  /** GetDictionaryWithoutPathExpansion: the value under `key` when it is a
      dictionary. */
  function GetDictionary(d: Dictionary, key: string): (r: Option<Dictionary>)
    ensures r.Some? <==> key in d && d[key].DictionaryValue?
    ensures r.Some? ==> d[key] == DictionaryValue(r.value)
  {
    if key in d && d[key].DictionaryValue? then Some(d[key].entries) else None
  }

  /** Whether a service's State is being set to a connected state. */
  predicate IsConnectedState(property: string, value: Value)
  {
    property == kStateProperty && value.StringValue? &&
    (value.s == kStateOnline || value.s == kStatePortal)
  }

  /** The position of the first '.' in `path`, if any. */
  function FindDot(path: string): (r: Option<nat>)
    ensures r.Some? ==> r.value < |path| && path[r.value] == '.' && '.' !in path[..r.value]
    ensures r.None? ==> '.' !in path
  {
    if path == [] then None
    else if path[0] == '.' then Some(0)
    else match FindDot(path[1..])
      case None => None
      case Some(i) =>
        assert path[..i + 1] == [path[0]] + path[1..][..i];
        Some(i + 1)
  }

  /** DictionaryValue::Set, which expands the path: each '.'-separated
      component but the last names a child dictionary, created (replacing a
      non-dictionary) when absent. */
  function SetWithPathExpansion(d: Dictionary, path: string, v: Value): Dictionary
    decreases |path|
  {
    match FindDot(path)
    case None => d[path := v]
    case Some(i) =>
      var key := path[..i];
      var child := if key in d && d[key].DictionaryValue? then d[key].entries else map[];
      d[key := DictionaryValue(SetWithPathExpansion(child, path[i + 1..], v))]
  }

  /** On a path without '.', Set and SetWithoutPathExpansion agree. */
  lemma SetWithoutDotIsPlain(d: Dictionary, path: string, v: Value)
    requires '.' !in path
    ensures SetWithPathExpansion(d, path, v) == d[path := v]
  {
  }

  // ---------------------------------------------------------------------
  // GetModifiableServiceProperties, as written and as intended

  /** GetModifiableServiceProperties as written: a missing service is
      created with the path-expanding Set. Returns the new service table. */
  function GetModifiableServicePropertiesAsWritten(services: Dictionary, path: string): Dictionary
  {
    if GetDictionary(services, path).Some? then services
    else SetWithPathExpansion(services, path, DictionaryValue(map[]))
  }

  /** A service path containing '.' is created as nested dictionaries, so
      the service the caller goes on to fill is one no lookup by that path
      finds: GetProperties then reports failure for it. */
  lemma DottedPathIsLost()
    ensures GetModifiableServicePropertiesAsWritten(map[], "a.b") == map["a" := DictionaryValue(map["b" := DictionaryValue(map[])])]
    ensures GetDictionary(GetModifiableServicePropertiesAsWritten(map[], "a.b"), "a.b").None?
  {
    assert FindDot("a.b") == Some(1);
    assert "a.b"[..1] == "a" && "a.b"[2..] == "b";
    assert FindDot("b") == None;
  }

  /** GetModifiableServiceProperties as intended: a missing service (or one
      whose entry is not a dictionary) becomes an empty property dictionary
      under exactly its path. */
  function GetModifiableServiceProperties(services: Dictionary, path: string): (r: Dictionary)
    ensures GetDictionary(r, path).Some?
    ensures GetDictionary(services, path).Some? ==> r == services
    ensures GetDictionary(services, path).None? ==> r == services[path := DictionaryValue(map[])]
  {
    if GetDictionary(services, path).Some? then services
    else services[path := DictionaryValue(map[])]
  }

  /** The two agree on every path without '.'. */
  lemma GetModifiableAgreesWithoutDot(services: Dictionary, path: string)
    requires '.' !in path
    ensures GetModifiableServicePropertiesAsWritten(services, path) == GetModifiableServiceProperties(services, path)
  {
    SetWithoutDotIsPlain(services, path, DictionaryValue(map[]));
  }

  // ---------------------------------------------------------------------
  // Specification functions for the loops

  /** The property dictionary after setting `properties` in order. */
  function SetAll(d: Dictionary, properties: seq<(string, Value)>): Dictionary
    decreases |properties|
  {
    if properties == [] then d
    else SetAll(d[properties[0].0 := properties[0].1], properties[1..])
  }

  /** The manager calls SetServiceProperty makes for `properties`. */
  function MovesFor(path: string, properties: seq<(string, Value)>): seq<ManagerCall>
  {
    if properties == [] then []
    else (if IsConnectedState(properties[0].0, properties[0].1) then [MoveServiceToIndex(path, 0, true)] else []) +
         MovesFor(path, properties[1..])
  }

  /** The notifications SetServiceProperty posts for `properties`. */
  function ChangesFor(path: string, properties: seq<(string, Value)>): (r: seq<PropertyChange>)
    ensures |r| == |properties|
    ensures forall i :: 0 <= i < |properties| ==> r[i] == PropertyChange(path, properties[i].0)
  {
    if properties == [] then [] else [PropertyChange(path, properties[0].0)] + ChangesFor(path, properties[1..])
  }

  /** The property dictionary without the named properties. */
  function Without(d: Dictionary, names: seq<string>): (r: Dictionary)
    ensures forall k :: k in r <==> k in d && k !in names
    ensures forall k :: k in r ==> r[k] == d[k]
  {
    map k | k in d && k !in names :: d[k]
  }

  lemma {:induction false} SetAllSnoc(d: Dictionary, properties: seq<(string, Value)>, p: (string, Value))
    ensures SetAll(d, properties + [p]) == SetAll(d, properties)[p.0 := p.1]
    decreases |properties|
  {
    if properties != [] {
      assert (properties + [p])[1..] == properties[1..] + [p];
      SetAllSnoc(d[properties[0].0 := properties[0].1], properties[1..], p);
    }
  }

  lemma {:induction false} MovesForSnoc(path: string, properties: seq<(string, Value)>, p: (string, Value))
    ensures MovesFor(path, properties + [p]) ==
            MovesFor(path, properties) + (if IsConnectedState(p.0, p.1) then [MoveServiceToIndex(path, 0, true)] else [])
    decreases |properties|
  {
    if properties != [] {
      assert (properties + [p])[1..] == properties[1..] + [p];
      MovesForSnoc(path, properties[1..], p);
    }
  }

  lemma {:induction false} ChangesForSnoc(path: string, properties: seq<(string, Value)>, p: (string, Value))
    ensures ChangesFor(path, properties + [p]) == ChangesFor(path, properties) + [PropertyChange(path, p.0)]
    decreases |properties|
  {
    if properties != [] {
      assert (properties + [p])[1..] == properties[1..] + [p];
      ChangesForSnoc(path, properties[1..], p);
    }
  }

  /** Setting properties one by one: the value a key ends with is the last
      one given for it, and keys not given keep their values. */
  lemma {:induction false} SetAllLookup(d: Dictionary, properties: seq<(string, Value)>, k: string)
    ensures k in SetAll(d, properties) <==> k in d || exists i :: 0 <= i < |properties| && properties[i].0 == k
    ensures (forall i :: 0 <= i < |properties| ==> properties[i].0 != k) && k in d ==> SetAll(d, properties)[k] == d[k]
    decreases |properties|
  {
    if properties != [] {
      SetAllLookup(d[properties[0].0 := properties[0].1], properties[1..], k);
      if exists i :: 0 <= i < |properties[1..]| && properties[1..][i].0 == k {
        var i :| 0 <= i < |properties[1..]| && properties[1..][i].0 == k;
        assert properties[i + 1].0 == k;
      }
      if exists i :: 0 <= i < |properties| && properties[i].0 == k {
        var i :| 0 <= i < |properties| && properties[i].0 == k;
        assert i == 0 || properties[1..][i - 1].0 == k;
      }
    }
  }

  // ---------------------------------------------------------------------
  // The stub

  class ShillServiceClientStub {
    /** stub_services_. */
    var services: Dictionary
    var managerCalls: seq<ManagerCall>
    var notifications: seq<PropertyChange>

    constructor ()
      ensures services == map[] && managerCalls == [] && notifications == []
    {
      services := map[];
      managerCalls := [];
      notifications := [];
    }

    /** GetServiceProperties. */
    function GetServiceProperties(path: string): Option<Dictionary>
      reads this
    {
      GetDictionary(services, path)
    }

    /** GetProperties: a copy of the service's properties without its
        passphrase, or an empty dictionary and failure. */
    method GetProperties(path: string) returns (status: DBusMethodCallStatus, properties: Dictionary)
      ensures status == DBUS_METHOD_CALL_SUCCESS <==> GetServiceProperties(path).Some?
      ensures status == DBUS_METHOD_CALL_SUCCESS ==>
                kPassphraseProperty !in properties &&
                forall k :: k != kPassphraseProperty ==>
                  (k in properties <==> k in GetServiceProperties(path).value) &&
                  (k in properties ==> properties[k] == GetServiceProperties(path).value[k])
      ensures status == DBUS_METHOD_CALL_FAILURE ==> properties == map[]
    {
      var nested := GetDictionary(services, path);
      if nested.Some? {
        properties := nested.value - {kPassphraseProperty};
        status := DBUS_METHOD_CALL_SUCCESS;
      } else {
        properties := map[];
        status := DBUS_METHOD_CALL_FAILURE;
      }
    }

    /** SetServiceProperty: stores the value under the property name of a
        known service, moves a service going online or into a portal to the
        top of the manager's list, and posts a change notification. */
    method SetServiceProperty(path: string, property: string, value: Value) returns (ok: bool)
      modifies this`services, this`managerCalls, this`notifications
      ensures ok <==> old(GetServiceProperties(path)).Some?
      ensures !ok ==> services == old(services) && managerCalls == old(managerCalls) &&
                      notifications == old(notifications)
      ensures ok ==> services == old(services)[path := DictionaryValue(old(GetServiceProperties(path)).value[property := value])]
      ensures ok ==> managerCalls == old(managerCalls) +
                       (if IsConnectedState(property, value) then [MoveServiceToIndex(path, 0, true)] else [])
      ensures ok ==> notifications == old(notifications) + [PropertyChange(path, property)]
    {
      var dict := GetDictionary(services, path);
      if dict.None? {
        return false;
      }
      if property == kStateProperty {
        if value.StringValue? && (value.s == kStateOnline || value.s == kStatePortal) {
          managerCalls := managerCalls + [MoveServiceToIndex(path, 0, true)];
        }
      }
      services := services[path := DictionaryValue(dict.value[property := value])];
      notifications := notifications + [PropertyChange(path, property)];
      return true;
    }

    /** SetProperty: SetServiceProperty, reporting an unknown service
        through the error callback (`ok` false). */
    method SetProperty(path: string, name: string, value: Value) returns (ok: bool)
      modifies this`services, this`managerCalls, this`notifications
      ensures ok <==> old(GetServiceProperties(path)).Some?
      ensures !ok ==> services == old(services) && managerCalls == old(managerCalls) &&
                      notifications == old(notifications)
      ensures ok ==> services == old(services)[path := DictionaryValue(old(GetServiceProperties(path)).value[name := value])]
      ensures ok ==> managerCalls == old(managerCalls) +
                       (if IsConnectedState(name, value) then [MoveServiceToIndex(path, 0, true)] else [])
      ensures ok ==> notifications == old(notifications) + [PropertyChange(path, name)]
    {
      ok := SetServiceProperty(path, name, value);
    }

    /** SetProperties: sets each property in the dictionary's iteration
        order, stopping with an error at the first that fails. Only an
        unknown service fails, so the first key fails or none does. */
    method SetProperties(path: string, properties: seq<(string, Value)>) returns (ok: bool)
      modifies this`services, this`managerCalls, this`notifications
      ensures ok <==> properties == [] || old(GetServiceProperties(path)).Some?
      ensures !ok ==> services == old(services) && managerCalls == old(managerCalls) &&
                      notifications == old(notifications)
      ensures ok && properties != [] ==>
                services == old(services)[path := DictionaryValue(SetAll(old(GetServiceProperties(path)).value, properties))] &&
                managerCalls == old(managerCalls) + MovesFor(path, properties) &&
                notifications == old(notifications) + ChangesFor(path, properties)
      ensures properties == [] ==> services == old(services) && managerCalls == old(managerCalls) &&
                                   notifications == old(notifications)
    {
      ghost var base := GetServiceProperties(path);
      ghost var services0, managerCalls0, notifications0 := services, managerCalls, notifications;
      var i := 0;
      while i < |properties|
        invariant 0 <= i <= |properties|
        invariant i > 0 ==> base.Some?
        invariant i == 0 ==> services == services0 && managerCalls == managerCalls0 &&
                             notifications == notifications0
        invariant i > 0 ==>
                    services == services0[path := DictionaryValue(SetAll(base.value, properties[..i]))] &&
                    managerCalls == managerCalls0 + MovesFor(path, properties[..i]) &&
                    notifications == notifications0 + ChangesFor(path, properties[..i])
      {
        assert GetServiceProperties(path) ==
               if i == 0 then base else Some(SetAll(base.value, properties[..i]));
        ok := SetServiceProperty(path, properties[i].0, properties[i].1);
        if !ok {
          return false;
        }
        ghost var p := properties[i];
        assert properties[..i + 1] == properties[..i] + [p];
        SetAllSnoc(base.value, properties[..i], p);
        MovesForSnoc(path, properties[..i], p);
        ChangesForSnoc(path, properties[..i], p);
        i := i + 1;
      }
      assert properties[..|properties|] == properties;
      return true;
    }

    /** ClearProperty: removes one property of a known service. */
    method ClearProperty(path: string, name: string) returns (ok: bool)
      modifies this`services
      ensures ok <==> old(GetServiceProperties(path)).Some?
      ensures !ok ==> services == old(services)
      ensures ok ==> services == old(services)[path := DictionaryValue(old(GetServiceProperties(path)).value - {name})]
    {
      var dict := GetDictionary(services, path);
      if dict.None? {
        return false;
      }
      services := services[path := DictionaryValue(dict.value - {name})];
      return true;
    }

    /** ClearProperties: removes each named property of a known service and
        reports `true` for each name. */
    method ClearProperties(path: string, names: seq<string>) returns (results: Option<seq<bool>>)
      modifies this`services
      ensures results.Some? <==> old(GetServiceProperties(path)).Some?
      ensures results.None? ==> services == old(services)
      ensures results.Some? ==>
                |results.value| == |names| && (forall i :: 0 <= i < |names| ==> results.value[i]) &&
                services == old(services)[path := DictionaryValue(Without(old(GetServiceProperties(path)).value, names))]
    {
      var dict := GetDictionary(services, path);
      if dict.None? {
        return None;
      }
      var d := dict.value;
      assert Without(d, names[..0]) == d;
      assert old(services)[path := DictionaryValue(d)] == old(services);
      var list: seq<bool> := [];
      var i := 0;
      while i < |names|
        invariant 0 <= i <= |names|
        invariant |list| == i && forall j :: 0 <= j < i ==> list[j]
        invariant services == old(services)[path := DictionaryValue(Without(d, names[..i]))]
      {
        assert names[..i + 1] == names[..i] + [names[i]];
        assert Without(d, names[..i + 1]) == Without(d, names[..i]) - {names[i]};
        services := services[path := DictionaryValue(GetDictionary(services, path).value - {names[i]})];
        list := list + [true];
        i := i + 1;
      }
      assert names[..|names|] == names;
      return Some(list);
    }

    /** GetLoadableProfileEntries: {profile path: service path} when the
        service's Profile property is a string, else an empty dictionary;
        the service is created when missing. */
    method GetLoadableProfileEntries(path: string) returns (status: DBusMethodCallStatus, entries: Dictionary)
      modifies this`services
      ensures status == DBUS_METHOD_CALL_SUCCESS
      ensures services == GetModifiableServiceProperties(old(services), path)
      ensures GetServiceProperties(path).Some?
      ensures var p := old(GetServiceProperties(path));
              if p.Some? && kProfileProperty in p.value && p.value[kProfileProperty].StringValue?
              then entries == map[p.value[kProfileProperty].s := StringValue(path)]
              else entries == map[]
    {
      services := GetModifiableServiceProperties(services, path);
      var properties := GetDictionary(services, path).value;
      entries := map[];
      if kProfileProperty in properties && properties[kProfileProperty].StringValue? {
        entries := entries[properties[kProfileProperty].s := StringValue(path)];
      }
      status := DBUS_METHOD_CALL_SUCCESS;
    }

    /** What adding a service promises: the manager is told, the service
        exists with SSID (its path), Name, Type and State set, IPConfig set
        exactly when `ipconfigPath` is non-empty, every other property of
        an existing service kept, and every other service unchanged. */
    twostate predicate ServiceAdded(path: string, name: string, type_: string, state: string, ipconfigPath: string,
                                    addToVisibleList: bool, addToWatchList: bool)
      reads this
    {
      managerCalls == old(managerCalls) + [AddManagerService(path, addToVisibleList, addToWatchList)] &&
      GetServiceProperties(path).Some? &&
      (forall p :: p != path ==> (p in services <==> p in old(services))) &&
      (forall p :: p != path && p in services ==> services[p] == old(services)[p]) &&
      var before := GetModifiableServiceProperties(old(services), path)[path].entries;
      var props := GetServiceProperties(path).value;
      kSSIDProperty in props && props[kSSIDProperty] == StringValue(path) &&
      kNameProperty in props && props[kNameProperty] == StringValue(name) &&
      kTypeProperty in props && props[kTypeProperty] == StringValue(type_) &&
      kStateProperty in props && props[kStateProperty] == StringValue(state) &&
      (ipconfigPath != "" ==> kIPConfigProperty in props && props[kIPConfigProperty] == StringValue(ipconfigPath)) &&
      (forall k :: k !in {kSSIDProperty, kNameProperty, kTypeProperty, kStateProperty} &&
                   (k != kIPConfigProperty || ipconfigPath == "") ==>
                     (k in props <==> k in before) && (k in props ==> props[k] == before[k]))
    }

    /** AddServiceWithIPConfig: registers the service with the manager and
        sets SSID (the path), Name, Type and State, and IPConfig when one is
        given; other properties of an existing service stay. */
    method AddServiceWithIPConfig(path: string, name: string, type_: string, state: string, ipconfigPath: string,
                                  addToVisibleList: bool, addToWatchList: bool)
      modifies this`services, this`managerCalls
      ensures ServiceAdded(path, name, type_, state, ipconfigPath, addToVisibleList, addToWatchList)
    {
      managerCalls := managerCalls + [AddManagerService(path, addToVisibleList, addToWatchList)];
      services := GetModifiableServiceProperties(services, path);
      var props := GetDictionary(services, path).value;
      props := props[kSSIDProperty := StringValue(path)];
      props := props[kNameProperty := StringValue(name)];
      props := props[kTypeProperty := StringValue(type_)];
      props := props[kStateProperty := StringValue(state)];
      if ipconfigPath != "" {
        props := props[kIPConfigProperty := StringValue(ipconfigPath)];
      }
      services := services[path := DictionaryValue(props)];
    }

    /** AddService: AddServiceWithIPConfig without an IP configuration. */
    method AddService(path: string, name: string, type_: string, state: string,
                      addToVisibleList: bool, addToWatchList: bool)
      modifies this`services, this`managerCalls
      ensures ServiceAdded(path, name, type_, state, "", addToVisibleList, addToWatchList)
    {
      AddServiceWithIPConfig(path, name, type_, state, "", addToVisibleList, addToWatchList);
    }

    /** RemoveService: unregisters the service and deletes only its entry. */
    method RemoveService(path: string)
      modifies this`services, this`managerCalls
      ensures services == old(services) - {path}
      ensures managerCalls == old(managerCalls) + [RemoveManagerService(path)]
    {
      managerCalls := managerCalls + [RemoveManagerService(path)];
      services := services - {path};
    }

    /** ClearServices: forgets every service. */
    method ClearServices()
      modifies this`services, this`managerCalls
      ensures services == map[]
      ensures managerCalls == old(managerCalls) + [ClearManagerServices]
    {
      managerCalls := managerCalls + [ClearManagerServices];
      services := map[];
    }
  }
}
