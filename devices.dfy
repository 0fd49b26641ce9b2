/** The device registry: which kiosk may post deposits with which key. */
module Devices {
  import opened Json

  /** The fixed table from device id to API key. */
  const DEVICES: map<string, string> := map["BIN-01" := "BIN01SECRET"]

  /** The property names every plain JavaScript object inherits from
      `Object.prototype`; looking one of them up in the device table yields a
      truthy value that has no `api_key` property. */
  const INHERITED: set<string> := {
    "constructor", "hasOwnProperty", "isPrototypeOf", "propertyIsEnumerable",
    "toString", "toLocaleString", "valueOf", "__proto__",
    "__defineGetter__", "__defineSetter__", "__lookupGetter__", "__lookupSetter__"
  }

  /** What `DEVICES[device_id]` yields. */
  datatype Entry = Own(apiKey: string) | Inherited | Undefined

  /** Indexing the device table with a request value. A string is its own
      property key; every other kind of value converts to a key ("5", "true",
      "null", "undefined", ...) that names neither a device nor an inherited
      property. */
  function Lookup(deviceId: Value): (e: Entry)
    ensures e.Own? <==> deviceId.Str? && deviceId.s in DEVICES
    ensures e.Own? ==> e.apiKey == DEVICES[deviceId.s]
    ensures e.Inherited? <==> deviceId.Str? && deviceId.s !in DEVICES && deviceId.s in INHERITED
  {
    match deviceId
    case Str(s) =>
      if s in DEVICES then Own(DEVICES[s])
      else if s in INHERITED then Inherited
      else Undefined
    case _ => Undefined
  }

  /** `authDevice(device_id, api_key)`: the entry must be truthy and its
      `api_key` strictly equal to the given key. An inherited entry has no
      `api_key`, so it matches exactly when the key is `undefined` too. */
  function AuthDevice(deviceId: Value, apiKey: Value): (ok: bool)
    ensures ok <==>
      || (deviceId == Str("BIN-01") && apiKey == Str("BIN01SECRET"))
      || (deviceId.Str? && deviceId.s in INHERITED && apiKey == Absent)
  {
    match Lookup(deviceId)
    case Own(key) => apiKey == Str(key)
    case Inherited => apiKey == Absent
    case Undefined => false
  }

  /** The registry's intended contract: the pair names a registered device
      and carries exactly its key. */
  predicate Registered(deviceId: Value, apiKey: Value)
  {
    deviceId.Str? && deviceId.s in DEVICES && apiKey == Str(DEVICES[deviceId.s])
  }

  /** Guarded as the deposit handler guards it (both credentials truthy),
      `authDevice` accepts exactly the registered pairs. */
  lemma GuardedAuthIsRegistry(deviceId: Value, apiKey: Value)
    ensures (Truthy(deviceId) && Truthy(apiKey) && AuthDevice(deviceId, apiKey))
            <==> Registered(deviceId, apiKey)
  {
  }

  /** Unguarded, `authDevice` accepts an inherited property name with a
      missing key; the handler's `!api_key` test is what refuses it. */
  lemma UnguardedAuthAcceptsInherited()
    ensures AuthDevice(Str("constructor"), Absent)
    ensures !Registered(Str("constructor"), Absent)
  {
  }
}
