/**
 * The record that describes one end-to-end-encryption device: its id, its
 * owner, the algorithms it supports, its public keys, the signatures over
 * them, the unsigned data the homeserver attaches, and how far the local
 * user trusts it. Keys are opaque base64 strings; nothing here signs or
 * verifies anything.
 */
module CryptoData {
  import opened Wrappers
  import opened Json

  // Verification levels of a device.
  const DEVICE_VERIFICATION_UNVERIFIED: int := 0
  const DEVICE_VERIFICATION_VERIFIED: int := 1
  const DEVICE_VERIFICATION_BLOCKED: int := 2

  /** Every Java field that may be null is an `Option`. */
  datatype MXDeviceInfo = MXDeviceInfo(
    deviceId: Option<string>,
    userId: Option<string>,
    algorithms: Option<seq<string>>,
    keys: Option<map<string, string>>,
    signatures: Option<map<string, map<string, string>>>,
    unsignedData: Option<map<string, Json>>,
    verified: int)

  /** The three verification levels are pairwise distinct. */
  lemma VerificationLevelsDistinct()
    ensures DEVICE_VERIFICATION_UNVERIFIED != DEVICE_VERIFICATION_VERIFIED
    ensures DEVICE_VERIFICATION_VERIFIED != DEVICE_VERIFICATION_BLOCKED
    ensures DEVICE_VERIFICATION_UNVERIFIED != DEVICE_VERIFICATION_BLOCKED
  {
  }

  /** A device as the constructor leaves it: only the id is set. */
  function NewDeviceInfo(aDeviceId: Option<string>): (d: MXDeviceInfo)
    ensures d.deviceId == aDeviceId
    ensures d.userId.None? && d.algorithms.None? && d.keys.None?
    ensures d.signatures.None? && d.unsignedData.None?
    ensures d.verified == DEVICE_VERIFICATION_UNVERIFIED
  {
    MXDeviceInfo(aDeviceId, None, None, None, None, None, DEVICE_VERIFICATION_UNVERIFIED)
  }

  // ---------------------------------------------------------------------
  // Key lookups

  /** "null or of length zero", the test the lookups apply to the device id. */
  predicate IsEmptyText(s: Option<string>)
  {
    s.None? || |s.value| == 0
  }

  /** The name under which a device's key of the given algorithm is filed. */
  function KeyName(algorithm: string, deviceId: string): string
  {
    algorithm + ":" + deviceId
  }

  /**
   * The key of the given algorithm filed for the device, or None when there
   * are no keys, the device id is null or empty, or no such key is filed.
   */
  function KeyLookup(d: MXDeviceInfo, algorithm: string): (r: Option<string>)
    ensures r.Some? <==>
      d.keys.Some? && !IsEmptyText(d.deviceId) && KeyName(algorithm, d.deviceId.value) in d.keys.value
    ensures r.Some? ==> r.value == d.keys.value[KeyName(algorithm, d.deviceId.value)]
  {
    if d.keys.Some? && !IsEmptyText(d.deviceId) then
      var name := KeyName(algorithm, d.deviceId.value);
      if name in d.keys.value then Some(d.keys.value[name]) else None
    else
      None
  }

  /** The Ed25519 signing key of the device. */
  function Fingerprint(d: MXDeviceInfo): (r: Option<string>)
    ensures r == KeyLookup(d, "ed25519")
  {
    KeyLookup(d, "ed25519")
  }

  /** The Curve25519 identity key of the device. */
  function IdentityKey(d: MXDeviceInfo): (r: Option<string>)
    ensures r == KeyLookup(d, "curve25519")
  {
    KeyLookup(d, "curve25519")
  }

  /**
   * No Ed25519 key name is a Curve25519 key name, whatever the two device
   * ids: the fingerprint and the identity key never share a map entry.
   */
  lemma {:induction false} KeyNamesDistinct(id1: string, id2: string)
    ensures KeyName("ed25519", id1) != KeyName("curve25519", id2)
  {
    assert KeyName("ed25519", id1)[0] == 'e';
    assert KeyName("curve25519", id2)[0] == 'c';
  }

  /**
   * For one device id, different algorithms file their keys under different
   * names.
   */
  lemma {:induction false} KeyNameInjective(a1: string, a2: string, id: string)
    requires KeyName(a1, id) == KeyName(a2, id)
    ensures a1 == a2
  {
    var n := KeyName(a1, id);
    assert |a1| == |n| - 1 - |id| == |a2|;
    assert n[..|a1|] == a1;
    assert KeyName(a2, id)[..|a2|] == a2;
  }

  /**
   * Rewriting the key of one algorithm leaves the lookup of any other
   * algorithm as it was; in particular the fingerprint and the identity key
   * never disturb each other.
   */
  lemma {:induction false} LookupsIndependent(d: MXDeviceInfo, a1: string, a2: string, key: string)
    requires d.keys.Some? && d.deviceId.Some? && a1 != a2
    ensures KeyLookup(d.(keys := Some(d.keys.value[KeyName(a1, d.deviceId.value) := key])), a2) == KeyLookup(d, a2)
  {
    if KeyName(a1, d.deviceId.value) == KeyName(a2, d.deviceId.value) {
      KeyNameInjective(a1, a2, d.deviceId.value);
      assert false;
    }
  }

  // ---------------------------------------------------------------------
  // Display name

  /** The cast of a non-string value to `String` fails at run time. */
  datatype CastError = ClassCastException

  const DISPLAY_NAME_KEY: string := "device_display_name"

  /**
   * The display name the homeserver attached to the device: None when there
   * is no unsigned data, no entry, or a null entry; a failure when the entry
   * is not a string.
   */
  function DisplayName(d: MXDeviceInfo): (r: Result<Option<string>, CastError>)
    ensures r == Success(None) <==>
      d.unsignedData.None? || DISPLAY_NAME_KEY !in d.unsignedData.value
      || d.unsignedData.value[DISPLAY_NAME_KEY] == JNull
    ensures forall name :: r == Success(Some(name)) <==>
      d.unsignedData.Some? && DISPLAY_NAME_KEY in d.unsignedData.value
      && d.unsignedData.value[DISPLAY_NAME_KEY] == JString(name)
    ensures r.Failure? <==>
      d.unsignedData.Some? && DISPLAY_NAME_KEY in d.unsignedData.value
      && !d.unsignedData.value[DISPLAY_NAME_KEY].JNull? && !d.unsignedData.value[DISPLAY_NAME_KEY].JString?
  {
    if d.unsignedData.Some? then
      if DISPLAY_NAME_KEY in d.unsignedData.value then
        match d.unsignedData.value[DISPLAY_NAME_KEY]
        case JNull => Success(None)
        case JString(name) => Success(Some(name))
        case _ => Failure(ClassCastException)
      else
        Success(None)
    else
      Success(None)
  }

  // ---------------------------------------------------------------------
  // Dictionaries

  const DEVICE_ID: string := "device_id"
  const USER_ID: string := "user_id"
  const ALGORITHMS: string := "algorithms"
  const KEYS: string := "keys"
  const SIGNATURES: string := "signatures"
  const UNSIGNED: string := "unsigned"

  /** The six dictionary keys are pairwise distinct. */
  lemma DictionaryKeysDistinct()
    ensures SIGNATURES !in SIGNED_KEYS && UNSIGNED !in SIGNED_KEYS && SIGNATURES != UNSIGNED
  {
  }

  /** The keys the signed dictionary can hold. */
  const SIGNED_KEYS: set<string> := {DEVICE_ID, USER_ID, ALGORITHMS, KEYS}

  /** The entry `key -> value` when the field is non-null, no entry otherwise. */
  function Entry(key: string, value: Option<Json>): (r: map<string, Json>)
    ensures r.Keys <= {key}
    ensures key in r <==> value.Some?
    ensures value.Some? ==> r[key] == value.value
  {
    if value.Some? then map[key := value.value] else map[]
  }

  /** A string field as a dictionary value: a null id is stored as null. */
  function NullableString(s: Option<string>): Json
  {
    if s.Some? then JString(s.value) else JNull
  }

  function UserIdValue(d: MXDeviceInfo): Option<Json>
  {
    if d.userId.Some? then Some(JString(d.userId.value)) else None
  }

  function AlgorithmsValue(d: MXDeviceInfo): Option<Json>
  {
    if d.algorithms.Some? then Some(StringList(d.algorithms.value)) else None
  }

  function KeysValue(d: MXDeviceInfo): Option<Json>
  {
    if d.keys.Some? then Some(StringMap(d.keys.value)) else None
  }

  function SignaturesValue(d: MXDeviceInfo): Option<Json>
  {
    if d.signatures.Some? then Some(StringMapMap(d.signatures.value)) else None
  }

  function UnsignedValue(d: MXDeviceInfo): Option<Json>
  {
    if d.unsignedData.Some? then Some(JObject(d.unsignedData.value)) else None
  }

  /**
   * The dictionary that gets signed: the device id always (null included),
   * and the user id, algorithms and keys when they are set; never the
   * signatures nor the unsigned data.
   */
  function SignedMap(d: MXDeviceInfo): (r: map<string, Json>)
    ensures r.Keys <= SIGNED_KEYS
    ensures DEVICE_ID in r && r[DEVICE_ID] == NullableString(d.deviceId)
    ensures USER_ID in r <==> d.userId.Some?
    ensures ALGORITHMS in r <==> d.algorithms.Some?
    ensures KEYS in r <==> d.keys.Some?
    ensures d.userId.Some? ==> r[USER_ID] == JString(d.userId.value)
    ensures d.algorithms.Some? ==> r[ALGORITHMS] == StringList(d.algorithms.value)
    ensures d.keys.Some? ==> r[KEYS] == StringMap(d.keys.value)
    ensures SIGNATURES !in r && UNSIGNED !in r
  {
    map[DEVICE_ID := NullableString(d.deviceId)]
      + Entry(USER_ID, UserIdValue(d))
      + Entry(ALGORITHMS, AlgorithmsValue(d))
      + Entry(KEYS, KeysValue(d))
  }

  /**
   * The full dictionary of the device: the signed entries, plus the
   * signatures and the unsigned data when they are set. The verification
   * level is never part of it.
   */
  function FullMap(d: MXDeviceInfo): (r: map<string, Json>)
    ensures r.Keys <= SIGNED_KEYS + {SIGNATURES, UNSIGNED}
    ensures DEVICE_ID in r && r[DEVICE_ID] == NullableString(d.deviceId)
    ensures USER_ID in r <==> d.userId.Some?
    ensures ALGORITHMS in r <==> d.algorithms.Some?
    ensures KEYS in r <==> d.keys.Some?
    ensures SIGNATURES in r <==> d.signatures.Some?
    ensures UNSIGNED in r <==> d.unsignedData.Some?
    ensures d.userId.Some? ==> r[USER_ID] == JString(d.userId.value)
    ensures d.algorithms.Some? ==> r[ALGORITHMS] == StringList(d.algorithms.value)
    ensures d.keys.Some? ==> r[KEYS] == StringMap(d.keys.value)
    ensures d.signatures.Some? ==> r[SIGNATURES] == StringMapMap(d.signatures.value)
    ensures d.unsignedData.Some? ==> r[UNSIGNED] == JObject(d.unsignedData.value)
  {
    DictionaryKeysDistinct();
    SignedMap(d)
      + Entry(SIGNATURES, SignaturesValue(d))
      + Entry(UNSIGNED, UnsignedValue(d))
  }

  /**
   * Builds the signed dictionary by filling a fresh map one conditional
   * put at a time.
   */
  method SignalableJSONDictionary(d: MXDeviceInfo) returns (dict: map<string, Json>)
    ensures dict == SignedMap(d)
  {
    dict := map[];
    dict := dict[DEVICE_ID := NullableString(d.deviceId)];
    ghost var before := dict;
    if d.userId.Some? {
      dict := dict[USER_ID := JString(d.userId.value)];
    }
    assert dict == before + Entry(USER_ID, UserIdValue(d));
    before := dict;
    if d.algorithms.Some? {
      dict := dict[ALGORITHMS := StringList(d.algorithms.value)];
    }
    assert dict == before + Entry(ALGORITHMS, AlgorithmsValue(d));
    before := dict;
    if d.keys.Some? {
      dict := dict[KEYS := StringMap(d.keys.value)];
    }
    assert dict == before + Entry(KEYS, KeysValue(d));
  }

  /**
   * Builds the full dictionary by filling a fresh map one conditional put at
   * a time; the signatures are put twice, which leaves the same map as
   * putting them once.
   */
  method JSONDictionary(d: MXDeviceInfo) returns (dict: map<string, Json>)
    ensures dict == FullMap(d)
  {
    dict := map[];
    dict := dict[DEVICE_ID := NullableString(d.deviceId)];
    ghost var before := dict;
    if d.userId.Some? {
      dict := dict[USER_ID := JString(d.userId.value)];
    }
    assert dict == before + Entry(USER_ID, UserIdValue(d));
    before := dict;
    if d.algorithms.Some? {
      dict := dict[ALGORITHMS := StringList(d.algorithms.value)];
    }
    assert dict == before + Entry(ALGORITHMS, AlgorithmsValue(d));
    before := dict;
    if d.keys.Some? {
      dict := dict[KEYS := StringMap(d.keys.value)];
    }
    assert dict == before + Entry(KEYS, KeysValue(d));
    before := dict;
    if d.signatures.Some? {
      dict := dict[SIGNATURES := StringMapMap(d.signatures.value)];
    }
    if d.signatures.Some? {
      dict := dict[SIGNATURES := StringMapMap(d.signatures.value)];
    }
    assert dict == before + Entry(SIGNATURES, SignaturesValue(d));
    before := dict;
    if d.unsignedData.Some? {
      dict := dict[UNSIGNED := JObject(d.unsignedData.value)];
    }
    assert dict == before + Entry(UNSIGNED, UnsignedValue(d));
  }

  // ---------------------------------------------------------------------
  // Properties of the dictionaries

  /** Adding entries under keys a map does not use keeps the map's own entries. */
  lemma UnionOutsideKeys(s: map<string, Json>, extra: map<string, Json>, ks: set<string>)
    requires s.Keys !! ks && extra.Keys <= ks
    ensures forall k :: k in s ==> k in s + extra && (s + extra)[k] == s[k]
    ensures (s + extra) - ks == s
    ensures (s + extra).Keys == s.Keys + extra.Keys
  {
    assert ((s + extra) - ks).Keys == s.Keys;
  }

  /**
   * The full dictionary agrees with the signed one on every key the signed
   * one has, and with the signatures and unsigned data taken away it is the
   * signed dictionary exactly.
   */
  lemma {:induction false} SignedMapIsSubMap(d: MXDeviceInfo)
    ensures forall k :: k in SignedMap(d) ==> k in FullMap(d) && FullMap(d)[k] == SignedMap(d)[k]
    ensures FullMap(d) - {SIGNATURES, UNSIGNED} == SignedMap(d)
    ensures FullMap(d).Keys == SignedMap(d).Keys
      + (if d.signatures.Some? then {SIGNATURES} else {})
      + (if d.unsignedData.Some? then {UNSIGNED} else {})
  {
    DictionaryKeysDistinct();
    var sigs, uns := Entry(SIGNATURES, SignaturesValue(d)), Entry(UNSIGNED, UnsignedValue(d));
    assert FullMap(d) == SignedMap(d) + (sigs + uns);
    UnionOutsideKeys(SignedMap(d), sigs + uns, {SIGNATURES, UNSIGNED});
  }

  /**
   * The signed dictionary does not depend on the signatures, the unsigned
   * data or the verification level, so adding signatures cannot change what
   * was signed.
   */
  lemma SignedMapIgnoresUnsignedParts(d: MXDeviceInfo,
      sigs: Option<map<string, map<string, string>>>, unsigned: Option<map<string, Json>>, level: int)
    ensures SignedMap(d.(signatures := sigs, unsignedData := unsigned, verified := level)) == SignedMap(d)
  {
  }

  /**
   * The signed dictionary pins down every field it covers: two devices with
   * the same signed dictionary have the same id, user id, algorithms and keys.
   */
  lemma {:induction false} SignedMapDeterminesSignedFields(a: MXDeviceInfo, b: MXDeviceInfo)
    requires SignedMap(a) == SignedMap(b)
    ensures a.deviceId == b.deviceId && a.userId == b.userId
    ensures a.algorithms == b.algorithms && a.keys == b.keys
  {
    var m := SignedMap(a);
    assert NullableString(a.deviceId) == m[DEVICE_ID] == NullableString(b.deviceId);
    if a.userId.Some? {
      assert JString(a.userId.value) == m[USER_ID] == JString(b.userId.value);
    }
    if a.algorithms.Some? {
      assert StringList(a.algorithms.value) == m[ALGORITHMS] == StringList(b.algorithms.value);
      StringListInjective(a.algorithms.value, b.algorithms.value);
    }
    if a.keys.Some? {
      assert StringMap(a.keys.value) == m[KEYS] == StringMap(b.keys.value);
      StringMapInjective(a.keys.value, b.keys.value);
    }
  }

  /**
   * The full dictionary pins down every field but the verification level:
   * two devices with the same full dictionary differ at most in that level.
   */
  lemma {:induction false} FullMapDeterminesDevice(a: MXDeviceInfo, b: MXDeviceInfo)
    requires FullMap(a) == FullMap(b)
    ensures a.(verified := DEVICE_VERIFICATION_UNVERIFIED) == b.(verified := DEVICE_VERIFICATION_UNVERIFIED)
  {
    SignedMapIsSubMap(a);
    SignedMapIsSubMap(b);
    SignedMapDeterminesSignedFields(a, b);
    var m := FullMap(a);
    if a.signatures.Some? {
      assert StringMapMap(a.signatures.value) == m[SIGNATURES] == StringMapMap(b.signatures.value);
      StringMapMapInjective(a.signatures.value, b.signatures.value);
    }
    if a.unsignedData.Some? {
      assert JObject(a.unsignedData.value) == m[UNSIGNED] == JObject(b.unsignedData.value);
    }
  }

  /**
   * A freshly constructed device has no keys, no display name, and both of
   * its dictionaries hold the device id alone.
   */
  lemma NewDeviceInfoDictionaries(aDeviceId: Option<string>)
    ensures Fingerprint(NewDeviceInfo(aDeviceId)).None?
    ensures IdentityKey(NewDeviceInfo(aDeviceId)).None?
    ensures DisplayName(NewDeviceInfo(aDeviceId)) == Success(None)
    ensures SignedMap(NewDeviceInfo(aDeviceId)) == map[DEVICE_ID := NullableString(aDeviceId)]
    ensures FullMap(NewDeviceInfo(aDeviceId)) == map[DEVICE_ID := NullableString(aDeviceId)]
  {
  }
}
