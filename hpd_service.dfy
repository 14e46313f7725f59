/**
 * The HomePort data manager's service registry: Parameters, Services and
 * the Device whose service list they join. C strings are modelled by their
 * contents up to the terminating NUL; a NULL string is None.
 */
module HpdService {
  import opened Wrappers

  // ---------------------------------------------------------------------
  // Error codes and opaque handles
  // ---------------------------------------------------------------------

  /** The HPD error codes these functions return (HPD_E_SUCCESS is the 0 returned on success). */
  datatype HpdError = HpdSuccess | HpdNullPointer | HpdServiceInUse

  /** A function or user-data pointer, stored and compared but never called here. */
  datatype Pointer = Pointer(address: nat)

  /** The value of `secure_device` that marks a secure device. */
  const HPD_SECURE_DEVICE: int := 1

  // ---------------------------------------------------------------------
  // Parameter
  // ---------------------------------------------------------------------

  /** A service parameter: an ID and seven optional descriptive strings. */
  datatype Parameter = Parameter(
    id: string,
    max: Option<string>,
    min: Option<string>,
    scale: Option<string>,
    step: Option<string>,
    valueType: Option<string>,
    unit: Option<string>,
    values: Option<string>)

  /** The strings a Parameter owns. */
  datatype ParamField = PId | PMax | PMin | PScale | PStep | PType | PUnit | PValues

  /**
   * create_parameter_struct: no parameter without an ID; otherwise every
   * given string is copied and every absent one stays absent.
   */
  function CreateParameter(id: Option<string>, max: Option<string>, min: Option<string>,
                           scale: Option<string>, step: Option<string>, valueType: Option<string>,
                           unit: Option<string>, values: Option<string>): (r: Option<Parameter>)
    ensures r.None? <==> id.None?
    ensures r.Some? ==> r.value.id == id.value
    ensures r.Some? ==> r.value.max == max && r.value.min == min && r.value.scale == scale && r.value.step == step
    ensures r.Some? ==> r.value.valueType == valueType && r.value.unit == unit && r.value.values == values
  {
    if id.None? then None
    else Some(Parameter(id.value, max, min, scale, step, valueType, unit, values))
  }

  /** Every parameter is what create_parameter_struct makes from its own fields. */
  lemma CreateParameterOfFields(p: Parameter)
    ensures CreateParameter(Some(p.id), p.max, p.min, p.scale, p.step, p.valueType, p.unit, p.values) == Some(p)
  {
  }

  /** The strings create_parameter_struct allocates when given these arguments. */
  function GivenFields(id: Option<string>, max: Option<string>, min: Option<string>,
                       scale: Option<string>, step: Option<string>, valueType: Option<string>,
                       unit: Option<string>, values: Option<string>): set<ParamField>
  {
    (if id.Some? then {PId} else {}) + (if max.Some? then {PMax} else {}) +
    (if min.Some? then {PMin} else {}) + (if scale.Some? then {PScale} else {}) +
    (if step.Some? then {PStep} else {}) + (if valueType.Some? then {PType} else {}) +
    (if unit.Some? then {PUnit} else {}) + (if values.Some? then {PValues} else {})
  }

  /** free_parameter_struct: the strings it frees; NULL frees nothing. */
  function FreedFields(p: Option<Parameter>): (freed: set<ParamField>)
    ensures p.None? ==> freed == {}
    ensures p.Some? ==> PId in freed
  {
    if p.None? then {}
    else
      var q := p.value;
      {PId} + (if q.max.Some? then {PMax} else {}) +
      (if q.min.Some? then {PMin} else {}) + (if q.scale.Some? then {PScale} else {}) +
      (if q.step.Some? then {PStep} else {}) + (if q.valueType.Some? then {PType} else {}) +
      (if q.unit.Some? then {PUnit} else {}) + (if q.values.Some? then {PValues} else {})
  }

  /**
   * Freeing what create_parameter_struct returned releases exactly the
   * strings it allocated, or nothing when it returned NULL.
   */
  lemma CreateThenFree(id: Option<string>, max: Option<string>, min: Option<string>,
                       scale: Option<string>, step: Option<string>, valueType: Option<string>,
                       unit: Option<string>, values: Option<string>)
    ensures FreedFields(CreateParameter(id, max, min, scale, step, valueType, unit, values)) ==
            if id.None? then {} else GivenFields(id, max, min, scale, step, valueType, unit, values)
  {
  }

  // ---------------------------------------------------------------------
  // Required fields of a service, checked in a fixed order
  // ---------------------------------------------------------------------

  datatype RequiredField = FieldId | FieldType | FieldDevice | FieldGetFunction | FieldParameter

  /** The order in which create_service_struct checks the required fields. */
  const REQUIRED_ORDER: seq<RequiredField> := [FieldId, FieldType, FieldDevice, FieldGetFunction, FieldParameter]

  /** The index of the first field of `order[from..]` that is not present, |order| if there is none. */
  function FirstAbsent(order: seq<RequiredField>, present: set<RequiredField>, from: nat): (k: nat)
    requires from <= |order|
    ensures from <= k <= |order|
    ensures forall j :: from <= j < k ==> order[j] in present
    ensures k < |order| ==> order[k] !in present
    decreases |order| - from
  {
    if from == |order| || order[from] !in present then from
    else FirstAbsent(order, present, from + 1)
  }

  /**
   * The required field whose absence makes create_service_struct give up:
   * the first one, in checking order, that is not present.
   */
  function FirstMissing(present: set<RequiredField>): (r: Option<RequiredField>)
    ensures r.None? <==> forall j :: 0 <= j < |REQUIRED_ORDER| ==> REQUIRED_ORDER[j] in present
    ensures r.Some? ==> r.value !in present &&
                        forall j :: 0 <= j < |REQUIRED_ORDER| && REQUIRED_ORDER[j] == r.value ==>
                          forall i :: 0 <= i < j ==> REQUIRED_ORDER[i] in present
  {
    var k := FirstAbsent(REQUIRED_ORDER, present, 0);
    if k < |REQUIRED_ORDER| then Some(REQUIRED_ORDER[k]) else None
  }

  /** The required fields among the arguments of create_service_struct that are not NULL. */
  function PresentFields(id: Option<string>, serviceType: Option<string>, hasDevice: bool,
                         getFunction: Option<Pointer>, parameter: Option<Parameter>): set<RequiredField>
  {
    (if id.Some? then {FieldId} else {}) + (if serviceType.Some? then {FieldType} else {}) +
    (if hasDevice then {FieldDevice} else {}) +
    (if getFunction.Some? then {FieldGetFunction} else {}) +
    (if parameter.Some? then {FieldParameter} else {})
  }

  /** The checks reject exactly the calls that leave out one of the five required fields. */
  lemma {:induction false} RequiredChecks(id: Option<string>, serviceType: Option<string>, hasDevice: bool,
                                          getFunction: Option<Pointer>, parameter: Option<Parameter>)
    ensures FirstMissing(PresentFields(id, serviceType, hasDevice, getFunction, parameter)).None?
            <==> id.Some? && serviceType.Some? && hasDevice && getFunction.Some? && parameter.Some?
    ensures id.None? ==> FirstMissing(PresentFields(id, serviceType, hasDevice, getFunction, parameter)) == Some(FieldId)
  {
    var present := PresentFields(id, serviceType, hasDevice, getFunction, parameter);
    var r := FirstMissing(present);
    if r.None? {
      assert REQUIRED_ORDER[0] in present && REQUIRED_ORDER[1] in present && REQUIRED_ORDER[2] in present;
      assert REQUIRED_ORDER[3] in present && REQUIRED_ORDER[4] in present;
    }
  }

  // ---------------------------------------------------------------------
  // Names derived from the device and the service
  // ---------------------------------------------------------------------

  /** `parts` joined with `sep` between consecutive parts. */
  function Join(parts: seq<string>, sep: char): string
    requires |parts| >= 1
  {
    if |parts| == 1 then parts[0] else parts[0] + [sep] + Join(parts[1..], sep)
  }

  /** `s` cut at every `sep`: the inverse of Join. */
  function Split(s: string, sep: char): (parts: seq<string>)
    ensures |parts| >= 1
    decreases |s|
  {
    if s == [] then [[]]
    else
      var rest := Split(s[1..], sep);
      if s[0] == sep then [[]] + rest else [[s[0]] + rest[0]] + rest[1..]
  }

  predicate Free(w: string, sep: char) {
    forall j :: 0 <= j < |w| ==> w[j] != sep
  }

  /** A word without the separator is one part. */
  lemma {:induction false} SplitWord(w: string, sep: char)
    requires Free(w, sep)
    ensures Split(w, sep) == [w]
  {
    if w != [] {
      SplitWord(w[1..], sep);
      assert [w[0]] + w[1..] == w;
    }
  }

  /** A word without the separator, then the separator, then anything: the word is the first part. */
  lemma {:induction false} SplitAfterWord(w: string, sep: char, s: string)
    requires Free(w, sep)
    ensures Split(w + [sep] + s, sep) == [w] + Split(s, sep)
  {
    if w == [] {
      assert w + [sep] + s == [sep] + s;
      assert ([sep] + s)[1..] == s;
    } else {
      assert (w + [sep] + s)[1..] == w[1..] + [sep] + s;
      SplitAfterWord(w[1..], sep, s);
      assert [w[0]] + w[1..] == w;
    }
  }

  /** Splitting a joined sequence of separator-free parts gives the parts back. */
  lemma {:induction false} SplitJoin(parts: seq<string>, sep: char)
    requires |parts| >= 1
    requires forall j :: 0 <= j < |parts| ==> Free(parts[j], sep)
    ensures Split(Join(parts, sep), sep) == parts
    decreases |parts|
  {
    if |parts| == 1 {
      SplitWord(parts[0], sep);
    } else {
      SplitJoin(parts[1..], sep);
      SplitAfterWord(parts[0], sep, Join(parts[1..], sep));
    }
  }

  /** Joining the parts of any string gives the string back. */
  lemma {:induction false} JoinSplit(s: string, sep: char)
    ensures Join(Split(s, sep), sep) == s
    decreases |s|
  {
    if s != [] {
      JoinSplit(s[1..], sep);
      var rest := Split(s[1..], sep);
      if s[0] != sep {
        if |rest| == 1 {
          assert Join([[s[0]] + rest[0]] + rest[1..], sep) == [s[0]] + rest[0];
        } else {
          assert ([[s[0]] + rest[0]] + rest[1..])[1..] == rest[1..];
        }
      } else {
        assert ([[]] + rest)[1..] == rest;
      }
    }
  }

  /** Four parts joined: the parts with a separator between each two. */
  lemma JoinFour(a: string, b: string, c: string, d: string, sep: char)
    ensures Join([a, b, c, d], sep) == a + [sep] + b + [sep] + c + [sep] + d
  {
    assert [c, d][1..] == [d];
    assert Join([c, d], sep) == c + [sep] + d;
    assert [b, c, d][1..] == [c, d];
    assert Join([b, c, d], sep) == b + [sep] + (c + [sep] + d);
    assert [a, b, c, d][1..] == [b, c, d];
    assert Join([a, b, c, d], sep) == a + [sep] + (b + [sep] + (c + [sep] + d));
  }

  /** value_url: "/{device type}/{device ID}/{service type}/{service ID}". */
  function ValueUrl(deviceType: string, deviceId: string, serviceType: string, serviceId: string): (url: string)
    ensures |url| + 1 == |"/"| + |deviceType| + |"/"| + |deviceId| + |"/"| + |serviceType| + |"/"| + |serviceId| + 1
    ensures url[0] == '/'
  {
    JoinFour(deviceType, deviceId, serviceType, serviceId, '/');
    "/" + Join([deviceType, deviceId, serviceType, serviceId], '/')
  }

  /** zeroConfName: "{device type} {device ID} {service type} {service ID}". */
  function ZeroConfName(deviceType: string, deviceId: string, serviceType: string, serviceId: string): (name: string)
    ensures |name| + 1 == |deviceType| + |" "| + |deviceId| + |" "| + |serviceType| + |" "| + |serviceId| + 1
  {
    JoinFour(deviceType, deviceId, serviceType, serviceId, ' ');
    Join([deviceType, deviceId, serviceType, serviceId], ' ')
  }

  /** Reads a value URL back into its four parts. */
  function ParseValueUrl(url: string): Option<(string, string, string, string)> {
    if |url| == 0 || url[0] != '/' then None
    else
      var p := Split(url[1..], '/');
      if |p| == 4 then Some((p[0], p[1], p[2], p[3])) else None
  }

  /** Reads a zeroconf name back into its four parts. */
  function ParseZeroConfName(name: string): Option<(string, string, string, string)> {
    var p := Split(name, ' ');
    if |p| == 4 then Some((p[0], p[1], p[2], p[3])) else None
  }

  /** When no part holds a '/', the value URL names its device and service unambiguously. */
  lemma ValueUrlRoundTrip(deviceType: string, deviceId: string, serviceType: string, serviceId: string)
    requires Free(deviceType, '/') && Free(deviceId, '/') && Free(serviceType, '/') && Free(serviceId, '/')
    ensures ParseValueUrl(ValueUrl(deviceType, deviceId, serviceType, serviceId)) ==
            Some((deviceType, deviceId, serviceType, serviceId))
  {
    var parts := [deviceType, deviceId, serviceType, serviceId];
    SplitJoin(parts, '/');
    assert ValueUrl(deviceType, deviceId, serviceType, serviceId)[1..] == Join(parts, '/');
  }

  /** When no part holds a space, the zeroconf name names its device and service unambiguously. */
  lemma ZeroConfNameRoundTrip(deviceType: string, deviceId: string, serviceType: string, serviceId: string)
    requires Free(deviceType, ' ') && Free(deviceId, ' ') && Free(serviceType, ' ') && Free(serviceId, ' ')
    ensures ParseZeroConfName(ZeroConfName(deviceType, deviceId, serviceType, serviceId)) ==
            Some((deviceType, deviceId, serviceType, serviceId))
  {
    SplitJoin([deviceType, deviceId, serviceType, serviceId], ' ');
  }

  // ---------------------------------------------------------------------
  // DNS-SD service type
  // ---------------------------------------------------------------------

  const DNS_SD_SECURE: string := "_homeport-secure._tcp"
  const DNS_SD_PLAIN: string := "_homeport._tcp"

  /** DNS_SD_type: the secure service type exactly for a secure device. */
  function DnsSdType(secureDevice: int): (t: string)
    ensures t == DNS_SD_SECURE <==> secureDevice == HPD_SECURE_DEVICE
    ensures t == DNS_SD_PLAIN <==> secureDevice != HPD_SECURE_DEVICE
  {
    if secureDevice == HPD_SECURE_DEVICE then DNS_SD_SECURE else DNS_SD_PLAIN
  }

  predicate IsLetter(c: char) { 'a' <= c <= 'z' || 'A' <= c <= 'Z' }
  predicate IsLetterDigitHyphen(c: char) { IsLetter(c) || '0' <= c <= '9' || c == '-' }

  /**
   * A service name in the sense of section 5.1 of RFC 6335: 1 to 15
   * letters, digits and hyphens, at least one letter, no hyphen at either
   * end and no two hyphens in a row.
   */
  predicate IsServiceName(n: string) {
    1 <= |n| <= 15 &&
    (forall j :: 0 <= j < |n| ==> IsLetterDigitHyphen(n[j])) &&
    (exists j :: 0 <= j < |n| && IsLetter(n[j])) &&
    n[0] != '-' && n[|n| - 1] != '-' &&
    (forall j :: 0 <= j < |n| - 1 ==> n[j] != '-' || n[j + 1] != '-')
  }

  /** A service type in the sense of section 7 of RFC 6763: "_" name "." ("_tcp" or "_udp"). */
  predicate IsServiceType(t: string) {
    |t| > 6 && t[0] == '_' && t[|t| - 5..] in {"._tcp", "._udp"} && IsServiceName(t[1..|t| - 5])
  }

  /** Both service types HomePort announces are well formed, over TCP. */
  lemma DnsSdTypesWellFormed(secureDevice: int)
    ensures IsServiceType(DnsSdType(secureDevice))
    ensures DnsSdType(secureDevice)[|DnsSdType(secureDevice)| - 5..] == "._tcp"
  {
    var t := DnsSdType(secureDevice);
    var n := t[1..|t| - 5];
    assert n == if secureDevice == HPD_SECURE_DEVICE then "homeport-secure" else "homeport";
    assert IsLetter(n[0]);
  }

  // ---------------------------------------------------------------------
  // Devices and services
  // ---------------------------------------------------------------------

  /** The pthread mutex a service owns; its locking is not modelled. */
  class Mutex {
    constructor ()
    {
    }
  }

  /** A Device: its type, ID, security flag and the list of its services. */
  class Device {
    const deviceType: string
    const id: string
    const secureDevice: int
    var services: seq<Service>
    var destroyed: bool

    constructor (deviceType: string, id: string, secureDevice: int)
      ensures this.deviceType == deviceType && this.id == id && this.secureDevice == secureDevice
      ensures services == [] && !destroyed
    {
      this.deviceType := deviceType;
      this.id := id;
      this.secureDevice := secureDevice;
      services := [];
      destroyed := false;
    }
  }

  /** A Service, field for field as create_service_struct fills it. */
  class Service {
    const description: Option<string>
    const id: string
    const serviceType: string
    const unit: Option<string>
    var device: Device?
    const getFunction: Pointer
    const putFunction: Option<Pointer>
    const parameter: Parameter
    const userData: Option<Pointer>
    const valueUrl: string
    const zeroConfName: string
    const dnsSdType: string
    const mutex: Mutex
    var putValue: Option<string>
    var destroyed: bool

    constructor (description: Option<string>, id: string, serviceType: string, unit: Option<string>,
                 device: Device, getFunction: Pointer, putFunction: Option<Pointer>,
                 parameter: Parameter, userData: Option<Pointer>,
                 valueUrl: string, zeroConfName: string, dnsSdType: string, mutex: Mutex)
      ensures this.description == description && this.id == id && this.serviceType == serviceType
      ensures this.unit == unit && this.device == device && this.getFunction == getFunction
      ensures this.putFunction == putFunction && this.parameter == parameter && this.userData == userData
      ensures this.valueUrl == valueUrl && this.zeroConfName == zeroConfName && this.dnsSdType == dnsSdType
      ensures this.mutex == mutex && putValue == None && !destroyed
    {
      this.description := description;
      this.id := id;
      this.serviceType := serviceType;
      this.unit := unit;
      this.device := device;
      this.getFunction := getFunction;
      this.putFunction := putFunction;
      this.parameter := parameter;
      this.userData := userData;
      this.valueUrl := valueUrl;
      this.zeroConfName := zeroConfName;
      this.dnsSdType := dnsSdType;
      this.mutex := mutex;
      putValue := None;
      destroyed := false;
    }
  }

  /** A ServiceElement: a node of a device's doubly linked service list. */
  class ServiceElement {
    const service: Service
    var next: ServiceElement?
    var prev: ServiceElement?

    constructor (service: Service)
      ensures this.service == service && next == null && prev == null
    {
      this.service := service;
      next := null;
      prev := null;
    }
  }

  /**
   * create_service_element_struct: no element for a NULL service or when
   * the allocation (`allocOk`) fails; otherwise an unlinked element
   * holding the service.
   */
  method CreateServiceElement(service: Service?, allocOk: bool) returns (e: ServiceElement?)
    ensures e == null <==> service == null || !allocOk
    ensures e != null ==> fresh(e) && e.service == service && e.next == null && e.prev == null
  {
    if service == null || !allocOk {
      return null;
    }
    e := new ServiceElement(service);
  }

  /** destroy_service_element_struct: HPD_E_NULL_POINTER for NULL, success otherwise. */
  method DestroyServiceElement(e: ServiceElement?) returns (rc: HpdError)
    ensures rc == HpdNullPointer <==> e == null
    ensures rc == HpdSuccess <==> e != null
  {
    if e == null {
      return HpdNullPointer;
    }
    return HpdSuccess;
  }

  /** The list `services` without `s`, the others in their order. */
  function Without(services: seq<Service>, s: Service): (r: seq<Service>)
    ensures forall j :: 0 <= j < |r| ==> r[j] in services && r[j] != s
    ensures forall j :: 0 <= j < |services| && services[j] != s ==> services[j] in r
    ensures |r| <= |services|
  {
    if services == [] then []
    else (if services[0] == s then [] else [services[0]]) + Without(services[1..], s)
  }

  /** Removing a service that is not in the list changes nothing. */
  lemma {:induction false} WithoutAbsent(services: seq<Service>, s: Service)
    requires s !in services
    ensures Without(services, s) == services
  {
    if services != [] {
      WithoutAbsent(services[1..], s);
      assert [services[0]] + services[1..] == services;
    }
  }

  /** Removal works piecewise on a concatenation. */
  lemma {:induction false} WithoutConcat(a: seq<Service>, b: seq<Service>, s: Service)
    ensures Without(a + b, s) == Without(a, s) + Without(b, s)
  {
    if a != [] {
      WithoutConcat(a[1..], b, s);
      assert (a + b)[1..] == a[1..] + b;
    } else {
      assert a + b == b;
    }
  }

  /** Removing a service listed once shortens the list by one, keeping the others in their order. */
  lemma WithoutOnce(services: seq<Service>, s: Service, k: nat)
    requires k < |services| && services[k] == s
    requires forall j :: 0 <= j < |services| && j != k ==> services[j] != s
    ensures Without(services, s) == services[..k] + services[k + 1..]
  {
    var before, after := services[..k], services[k + 1..];
    assert services == before + [s] + after;
    assert s !in before by {
      forall j | 0 <= j < |before| ensures before[j] != s { assert before[j] == services[j]; }
    }
    assert s !in after by {
      forall j | 0 <= j < |after| ensures after[j] != s { assert after[j] == services[k + 1 + j]; }
    }
    WithoutConcat(before + [s], after, s);
    WithoutConcat(before, [s], s);
    WithoutAbsent(before, s);
    WithoutAbsent(after, s);
    assert Without([s], s) == [];
  }

  /** The list becomes empty exactly when it held nothing but `s`. */
  lemma WithoutEmpty(services: seq<Service>, s: Service)
    ensures Without(services, s) == [] <==> forall j :: 0 <= j < |services| ==> services[j] == s
  {
    if Without(services, s) == [] {
      forall j | 0 <= j < |services| ensures services[j] == s {
        assert services[j] in services;
      }
    }
  }

  /**
   * add_service_to_device (defined in another HomePort file): appends the
   * service to the device's list, or returns -1 when allocating its list
   * element fails.
   */
  method AddServiceToDevice(s: Service, d: Device, elementAllocOk: bool) returns (rc: int)
    modifies d
    ensures rc == (if elementAllocOk then 0 else -1)
    ensures d.services == if elementAllocOk then old(d.services) + [s] else old(d.services)
    ensures d.destroyed == old(d.destroyed)
  {
    var e := CreateServiceElement(s, elementAllocOk);
    if e == null {
      return -1;
    }
    d.services := d.services + [s];
    return 0;
  }

  /** remove_service_from_device (defined in another HomePort file): drops the service from the list. */
  method RemoveServiceFromDevice(s: Service, d: Device)
    modifies d
    ensures d.services == Without(old(d.services), s)
    ensures d.destroyed == old(d.destroyed)
  {
    d.services := Without(d.services, s);
  }

  /** destroy_device_struct (defined in another HomePort file): the device is gone. */
  method DestroyDevice(d: Device)
    modifies d
    ensures d.destroyed && d.services == old(d.services)
  {
    d.destroyed := true;
  }

  /**
   * create_service_struct. `allocOk` is the outcome of allocating the
   * Service, `elementAllocOk` that of add_service_to_device's list
   * element. `isActuator` is accepted and not stored.
   */
  method CreateService(description: Option<string>, id: Option<string>, isActuator: int,
                       serviceType: Option<string>, unit: Option<string>, device: Device?,
                       getFunction: Option<Pointer>, putFunction: Option<Pointer>,
                       parameter: Option<Parameter>, userData: Option<Pointer>,
                       allocOk: bool, elementAllocOk: bool) returns (s: Service?)
    modifies device
    ensures s == null <==>
      !allocOk || !elementAllocOk ||
      FirstMissing(PresentFields(id, serviceType, device != null, getFunction, parameter)).Some?
    ensures s != null ==> fresh(s) && device != null && s.device == device && !s.destroyed
    ensures s != null ==> s.id == id.value && s.serviceType == serviceType.value && s.getFunction == getFunction.value
    ensures s != null ==> s.parameter == parameter.value && s.description == description && s.unit == unit
    ensures s != null ==> s.putFunction == putFunction && s.userData == userData && s.putValue == None
    ensures s != null ==> s.valueUrl == ValueUrl(device.deviceType, device.id, s.serviceType, s.id)
    ensures s != null ==> s.zeroConfName == ZeroConfName(device.deviceType, device.id, s.serviceType, s.id)
    ensures s != null ==> s.dnsSdType == DnsSdType(device.secureDevice)
    ensures device != null ==> device.services == if s != null then old(device.services) + [s] else old(device.services)
    ensures device != null ==> device.destroyed == old(device.destroyed)
  {
    if !allocOk {
      return null;
    }
    var missing := FirstMissing(PresentFields(id, serviceType, device != null, getFunction, parameter));
    RequiredChecks(id, serviceType, device != null, getFunction, parameter);
    if missing.Some? {
      return null;
    }
    var url := ValueUrl(device.deviceType, device.id, serviceType.value, id.value);
    var name := ZeroConfName(device.deviceType, device.id, serviceType.value, id.value);
    var dnsType := DnsSdType(device.secureDevice);
    var mutex := new Mutex();
    s := new Service(description, id.value, serviceType.value, unit, device, getFunction.value, putFunction,
                     parameter.value, userData, url, name, dnsType, mutex);
    var rc := AddServiceToDevice(s, device, elementAllocOk);
    if rc == -1 {
      return null;
    }
  }

  /**
   * destroy_service_struct. `registered` is the set of services
   * registered with the server (is_service_registered). A NULL service is
   * a success that changes nothing; a registered one is refused with
   * HPD_E_SERVICE_IN_USE and left as it is. Otherwise the service leaves
   * its device's list, the device is destroyed if that empties the list,
   * and the service is destroyed.
   */
  method DestroyService(s: Service?, registered: set<Service>) returns (rc: HpdError)
    modifies s, if s != null && s.device != null then {s.device} else {}
    ensures s == null ==> rc == HpdSuccess
    ensures s != null && s in registered ==>
      rc == HpdServiceInUse && unchanged(s) && (s.device != null ==> unchanged(s.device))
    ensures s != null && s !in registered ==> rc == HpdSuccess && s.destroyed
    ensures s != null && s !in registered && old(s.device) != null ==>
      var d := old(s.device);
      (old(d.services) == [] ==> d.services == [] && d.destroyed == old(d.destroyed) && s.device == d) &&
      (old(d.services) != [] ==>
        d.services == Without(old(d.services), s) &&
        (d.destroyed <==> old(d.destroyed) || d.services == []) &&
        (s.device == null <==> d.services == []) &&
        (s.device != null ==> s.device == d))
  {
    if s == null {
      return HpdSuccess;
    }
    if s in registered {
      return HpdServiceInUse;
    }
    var d := s.device;
    if d != null {
      if d.services != [] {
        RemoveServiceFromDevice(s, d);
        if d.services == [] {
          DestroyDevice(d);
          s.device := null;
        }
      }
    }
    s.destroyed := true;
    return HpdSuccess;
  }
}
