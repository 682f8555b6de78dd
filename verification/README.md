# MXDeviceInfo: the device record of the Matrix Android SDK's end-to-end encryption

This project models `MXDeviceInfo`, the record the SDK keeps for every device
taking part in end-to-end encryption: the device id, the owning user id, the
list of supported algorithms, the map of public keys (`<algorithm>:<device id>`
to a base64 key), the signatures over them, the unsigned data the homeserver
attaches (among it the display name) and the local verification level
(unverified 0, verified 1, blocked 2).

- `wrappers.dfy` (module `Wrappers`): `Option` for Java's nullable references,
  `Result` for a call that may throw.
- `json.dfy` (module `Json`): the `Json` datatype standing for the `Object`
  values of a `Map<String, Object>`, the embeddings of `List<String>`,
  `Map<String, String>` and `Map<String, Map<String, String>>` into it, and
  lemmas that those embeddings are injective.
- `device_info.dfy` (module `CryptoData`): the record as the datatype
  `MXDeviceInfo`, the constructor, the three lookups, the two dictionary
  builders and the properties of the dictionaries.

The record is a value: `MXDeviceInfo` is a datatype, and the constructor
`new MXDeviceInfo(id)` is the function `NewDeviceInfo`. The three lookups are
pure guarded map lookups and are functions. The two dictionary builders fill a
fresh `HashMap` with one conditional `put` after another; they are methods that
do the same to a local `map` (including the `signatures` put that the source
performs twice) and are proved equal to the declarative dictionaries
`SignedMap` and `FullMap`, about which the remaining lemmas speak.
`TextUtils.isEmpty` becomes the predicate `IsEmptyText` (null or of length 0).

## Model

| member | source | states |
|---|---|---|
| `CryptoData.NewDeviceInfo` | matrix-sdk/src/main/java/org/matrix/androidsdk/crypto/data/MXDeviceInfo.java:75-83 | the constructor stores the given device id, leaves user id, algorithms, keys, signatures and unsigned data null and the verification level unverified |
| `CryptoData.VerificationLevelsDistinct` | matrix-sdk/src/main/java/org/matrix/androidsdk/crypto/data/MXDeviceInfo.java:31-38 | the three verification levels 0, 1, 2 are pairwise distinct |
| `CryptoData.KeyLookup` | matrix-sdk/src/main/java/org/matrix/androidsdk/crypto/data/MXDeviceInfo.java:88-105 | the guarded lookup both key getters share: a key is returned exactly when the keys map is non-null, the device id is neither null nor empty and `<algorithm>:<device id>` is filed; it is then that entry |
| `CryptoData.Fingerprint` | matrix-sdk/src/main/java/org/matrix/androidsdk/crypto/data/MXDeviceInfo.java:88-94 | the guarded lookup of `ed25519:<device id>` |
| `CryptoData.IdentityKey` | matrix-sdk/src/main/java/org/matrix/androidsdk/crypto/data/MXDeviceInfo.java:99-105 | the guarded lookup of `curve25519:<device id>` |
| `CryptoData.KeyNamesDistinct` | matrix-sdk/src/main/java/org/matrix/androidsdk/crypto/data/MXDeviceInfo.java:90-101 | no `ed25519:` key name equals any `curve25519:` key name, whatever the two device ids |
| `CryptoData.KeyNameInjective` | matrix-sdk/src/main/java/org/matrix/androidsdk/crypto/data/MXDeviceInfo.java:90-101 | for one device id, two algorithms build the same key name only if they are the same algorithm |
| `CryptoData.LookupsIndependent` | matrix-sdk/src/main/java/org/matrix/androidsdk/crypto/data/MXDeviceInfo.java:88-105 | rewriting the entry of one algorithm leaves the lookup of every other algorithm unchanged, so the fingerprint and the identity key never disturb each other |
| `CryptoData.DisplayName` | matrix-sdk/src/main/java/org/matrix/androidsdk/crypto/data/MXDeviceInfo.java:110-116 | null when there is no unsigned data, no `device_display_name` entry or a null entry; the string when the entry is a string (both directions); the cast failure exactly when the entry is some other value |
| `CryptoData.SignedMap` | matrix-sdk/src/main/java/org/matrix/androidsdk/crypto/data/MXDeviceInfo.java:121-139 | `device_id` is always present (null when the id is null); `user_id`, `algorithms`, `keys` are present exactly when their field is non-null; `user_id` holds the user id, `algorithms` the algorithm list, `keys` the key map; no other key, so never `signatures` nor `unsigned` |
| `CryptoData.FullMap` | matrix-sdk/src/main/java/org/matrix/androidsdk/crypto/data/MXDeviceInfo.java:144-175 | `device_id` always, holding the id (null when the id is null); each other key present exactly when its field is non-null and then holding that field (`user_id`, `algorithms`, `keys`, `signatures`, and `unsigned` holding the unsigned data itself); no key outside the six |
| `CryptoData.SignalableJSONDictionary` | matrix-sdk/src/main/java/org/matrix/androidsdk/crypto/data/MXDeviceInfo.java:121-139 | the map filled by the source's sequence of conditional puts is exactly the signed dictionary |
| `CryptoData.JSONDictionary` | matrix-sdk/src/main/java/org/matrix/androidsdk/crypto/data/MXDeviceInfo.java:144-175 | the map filled by the source's sequence of conditional puts, with `signatures` put twice, is exactly the full dictionary: the duplicated put is harmless |
| `CryptoData.SignedMapIsSubMap` | matrix-sdk/src/main/java/org/matrix/androidsdk/crypto/data/MXDeviceInfo.java:124-171 | the full dictionary agrees with the signed one on every signed key; its key set is the signed key set plus `signatures` exactly when signatures are non-null and `unsigned` exactly when unsigned data is non-null; removing those two keys gives the signed dictionary |
| `CryptoData.SignedMapIgnoresUnsignedParts` | matrix-sdk/src/main/java/org/matrix/androidsdk/crypto/data/MXDeviceInfo.java:121-139 | the signed dictionary does not depend on signatures, unsigned data or verification level |
| `CryptoData.SignedMapDeterminesSignedFields` | matrix-sdk/src/main/java/org/matrix/androidsdk/crypto/data/MXDeviceInfo.java:121-139 | two devices with equal signed dictionaries have equal device id, user id, algorithms and keys: the signed dictionary covers all of them |
| `CryptoData.FullMapDeterminesDevice` | matrix-sdk/src/main/java/org/matrix/androidsdk/crypto/data/MXDeviceInfo.java:144-175 | two devices with equal full dictionaries differ at most in their verification level |
| `CryptoData.NewDeviceInfoDictionaries` | matrix-sdk/src/main/java/org/matrix/androidsdk/crypto/data/MXDeviceInfo.java:81-175 | a freshly constructed device has no fingerprint, identity key or display name, and both dictionaries hold `device_id` alone |

## Left out

- `CryptoData.DisplayName`: the source's `(String)` cast throws `ClassCastException` for a non-string entry; the model returns `Failure(ClassCastException)` instead of modelling exception propagation.
- Null elements inside the `algorithms` list, null values inside the `keys` map, and null inner maps of `signatures` or null values inside them are not modelled: those lists and maps hold non-null strings only. A null value inside `unsignedData` is modelled, as `JNull`.
- The Java builders put the field objects themselves, so the returned map shares the device's lists and maps and later changes to either show in both; the model's dictionaries hold copies of the values, so that sharing is not captured.
- `Serializable`, `HashMap` hashing and iteration order: the dictionaries are Dafny maps, compared by equality.
- The Java fields are public and mutable; the model treats a device as a value, and only the constructor's field assignment is modelled, since no code in `MXDeviceInfo.java` updates a field after construction.
- Numbers in unsigned data are integers; floating-point JSON numbers are not modelled.
- The key-backup subsystem (backup versions, the chunked push loop, restore, recovery keys) is not part of this model: its source files are not among those modelled.
- Nothing cryptographic happens in this record: keys and signatures are opaque strings.
