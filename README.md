# Create-once registries over a Fabric world state

This project models three small Hyperledger Fabric chaincodes that share one core. Each is a
create-once registry kept in the ledger's world state, an ordered key-value store. A key is
either absent or present. Creation writes only to an absent key, and nothing is ever updated
or deleted. Listings and look-ups by attribute are full range scans in ascending key order.

- **IoT asset registry, Java** (`IoTAssetManage`, `IoTAsset`).
  - An asset is an immutable five-field record stored under its serial number `id`, serialized by Genson.
  - Reads by radio fingerprint (`empreinteRadio`) or MAC address (`adresseMac`) return the first asset in key order whose field matches.
  - A stored value that does not deserialize aborts the scan.
- **IoT asset registry, JavaScript** (`AssetTransfer`).
  - The same asset, stored as `stringify(sortKeysRecursive(asset))`: members sorted by name, written compactly.
  - Listings parse every stored value and keep the raw text of a value that is not JSON.
  - Reads by attribute return the first parsed record that matches. Raw text never matches.
- **Public hash registry, JavaScript** (`AssetTransferPublic`).
  - The key is the SHA-256 digest of an input, as lowercase hex.
  - The stored record is `{"hash": digest}`, so every key names itself.
  - Registration is create-if-absent. Verification is a read-only existence report.

The modules follow that structure:

- `Ledger` holds the world state: the class `WorldState` with a `state` map.
  - Its methods stand for `getState`, `putState` and `getStateByRange('', '')`.
  - The scan is specified by `Scan`: one entry per key, strictly ascending.
  - The ledger is passed to every chaincode operation as a parameter.
- `KeyOrder` gives the key order: lexicographic order on code points, proved a strict total order, and `SortedKeys`.
- `JsonText` is a flat JSON object writer (`Stringify`) and a parser (`Parse`), with the round trip proved.
- `Canonical` is the canonical form (`Canonicalize`, members sorted by name), with its determinism proved.
- `IoTAssetRecord` is the Java record.
  - Being a datatype, its getters are its destructors and its fields cannot be reassigned.
  - It also has `equals`, `hashCode` with Java's 32-bit arithmetic, and `toString`.
- `IoTAssetCodec` covers the serializer.
  - Genson is injected as a pair of functions, `Genson`.
  - The contract's proofs assume only `ReadsBack`: serialized text is non-empty and reads back as the same asset.
  - `JsonGenson` is Genson's alphabetical-order format, and `ReadsBack` is proved for it.
- `IoTAssetManage`, `JsRecords`, `AssetTransfer` and `AssetTransferPublic` are the contracts.
  - Their loops are methods proved against recursive specification functions.
  - Lemmas state what those functions mean on a ledger.
- SHA-256 is injected as a function `string -> Digest`: 64 lowercase hex digits, same input gives the same digest.

Where the specification and the code disagree, the model follows the code:

- In the Java contract, a value that does not deserialize makes reads, existence queries and the listing fail. They do not skip the value or return it raw.
- Assets created by `CreateAsset` carry no `docType`; only the seeding in `InitLedger` adds it.
- The Java contract stores Genson's serialization, not a key-sorted JSON encoding. Genson also happens to write properties in alphabetical order.

## Model

| member | source | states |
|---|---|---|
| Ledger.WorldState.GetState | asset-transfer-iot/chaincode-java/src/main/java/org/hyperledger/fabric/iot/IoTAssetManage.java:178 | a point read yields the stored text, or the empty value for a key that holds nothing |
| Ledger.WorldState.PutState | asset-transfer-iot/chaincode-java/src/main/java/org/hyperledger/fabric/iot/IoTAssetManage.java:84 | a point write changes exactly the written key |
| Ledger.WorldState.GetStateByRange | asset-transfer-iot/chaincode-java/src/main/java/org/hyperledger/fabric/iot/IoTAssetManage.java:97 | the full range scan yields the entries `Scan` describes, without changing the state |
| Ledger.Scan | asset-transfer-iot/chaincode-java/src/main/java/org/hyperledger/fabric/iot/IoTAssetManage.java:97 | the range scan over the whole key space has one entry per stored key, each with its stored value, in strictly ascending key order |
| Ledger.ScanBefore | asset-transfer-iot/chaincode-java/src/main/java/org/hyperledger/fabric/iot/IoTAssetManage.java:99-104 | a stored key below the key at scan position i is visited at an earlier position |
| Ledger.PutEach | asset-transfer-iot/chaincode-java/src/main/java/org/hyperledger/fabric/iot/IoTAssetManage.java:49-52 | the seeding loop leaves the state that writing each entry in turn gives |
| Ledger.PutAllKeys | asset-handle-public/chaincode-javascript/lib/assetTransferPublic.js:25-27 | a sequence of writes adds exactly its keys; each written key holds one of the values written to it; every other key keeps its value |
| Ledger.PutAllEffect | asset-transfer-basic/chaincode-javascript/lib/assetTransfer.js:37-41 | writes to distinct keys leave each key holding exactly the value written to it, and change nothing else |
| Ledger.PutAllAt | asset-transfer-basic/chaincode-javascript/lib/assetTransfer.js:40 | with distinct keys, a later write never overwrites an earlier one |
| KeyOrder.SortedKeys | asset-transfer-iot/chaincode-java/src/main/java/org/hyperledger/fabric/iot/IoTAssetManage.java:97 | the scan order lists every key of the set exactly once, in strictly ascending order |
| JsonText.EscapeParses | asset-transfer-basic/chaincode-javascript/lib/assetTransfer.js:63 | an escaped string body parses back to the original string and stops at the closing quote |
| JsonText.Stringify | asset-transfer-basic/chaincode-javascript/lib/assetTransfer.js:63 | the compact text of a flat object is enclosed in braces, so it is never empty |
| JsonText.Parse | asset-transfer-basic/chaincode-javascript/lib/assetTransfer.js:145 | only a text that opens an object after leading whitespace parses to a record |
| JsonText.MembersParse | asset-transfer-basic/chaincode-javascript/lib/assetTransfer.js:145 | a written member list parses back to the same members, whatever text follows it |
| JsonText.ParseStringify | asset-transfer-basic/chaincode-javascript/lib/assetTransfer.js:145 | `JSON.parse` of the compact text of a flat object gives back that object, members and order alike |
| Canonical.Lookup | asset-transfer-basic/chaincode-javascript/lib/assetTransfer.js:76 | a property lookup finds a value exactly when some member has that name |
| Canonical.Canonicalize | asset-transfer-basic/chaincode-javascript/lib/assetTransfer.js:63 | the canonical form is a permutation of the record's members, sorted by name, strictly so when the names are distinct |
| Canonical.SortedUnique | asset-transfer-basic/chaincode-javascript/lib/assetTransfer.js:63 | there is only one sorted arrangement of a set of distinctly named members |
| Canonical.CanonicalizeDeterministic | asset-transfer-basic/chaincode-javascript/lib/assetTransfer.js:63 | records with the same members, supplied in any order, get the same canonical form and the same stored text |
| Canonical.LookupCanonical | asset-transfer-basic/chaincode-javascript/lib/assetTransfer.js:63 | sorting the members changes no property's value |
| IoTAssetRecord.AssetFields | asset-transfer-iot/chaincode-java/src/main/java/org/hyperledger/fabric/iot/IoTAsset.java:17-30 | the record's JSON properties have distinct names |
| IoTAssetRecord.AssetFieldNames | asset-transfer-iot/chaincode-java/src/main/java/org/hyperledger/fabric/iot/IoTAsset.java:32-43 | the record has exactly the five properties its constructor names |
| IoTAssetRecord.SortedFieldsAreCanonical | asset-transfer-basic/chaincode-javascript/lib/assetTransfer.js:63 | the canonical form of an asset is its five properties in alphabetical order |
| IoTAssetRecord.Equals | asset-transfer-iot/chaincode-java/src/main/java/org/hyperledger/fabric/iot/IoTAsset.java:67-84 | `equals` is true exactly for an asset object with the same five fields: false for null and for another class |
| IoTAssetRecord.EqualsIsEquivalence | asset-transfer-iot/chaincode-java/src/main/java/org/hyperledger/fabric/iot/IoTAsset.java:79-83 | `equals` is reflexive, symmetric and transitive |
| IoTAssetRecord.Int32 | asset-transfer-iot/chaincode-java/src/main/java/org/hyperledger/fabric/iot/IoTAsset.java:88-90 | Java `int` arithmetic: the result is a 32-bit signed value congruent to the exact one modulo 2^32 |
| IoTAssetRecord.Int32Step | asset-transfer-iot/chaincode-java/src/main/java/org/hyperledger/fabric/iot/IoTAsset.java:88-90 | wrapping an intermediate result to 32 bits does not change the final wrapped result |
| IoTAssetRecord.PolyHash | asset-transfer-iot/chaincode-java/src/main/java/org/hyperledger/fabric/iot/IoTAsset.java:88-90 | the step-by-step wrapped `31 * h + u` loop equals the exact polynomial `h*31^n + sum of u[i]*31^(n-1-i)`, wrapped once |
| IoTAssetRecord.StringHashCode | asset-transfer-iot/chaincode-java/src/main/java/org/hyperledger/fabric/iot/IoTAsset.java:89 | `String.hashCode` of a field is the polynomial in 31 of its UTF-16 code units, wrapped to 32 bits |
| IoTAssetRecord.HashCode | asset-transfer-iot/chaincode-java/src/main/java/org/hyperledger/fabric/iot/IoTAsset.java:87-90 | `Objects.hash` of the five fields is `31^5 + h1*31^4 + h2*31^3 + h3*31^2 + h4*31 + h5` over the fields' string hash codes, wrapped to a 32-bit signed `int` |
| IoTAssetRecord.EqualsImpliesEqualHashCode | asset-transfer-iot/chaincode-java/src/main/java/org/hyperledger/fabric/iot/IoTAsset.java:87-90 | equal assets have equal hash codes |
| IoTAssetRecord.ToString | asset-transfer-iot/chaincode-java/src/main/java/org/hyperledger/fabric/iot/IoTAsset.java:93-98 | the text opens with the class name and the id, closes with `'}`, and is the five fields plus 85 characters of labels and quotes |
| IoTAssetRecord.ToStringInjective | asset-transfer-iot/chaincode-java/src/main/java/org/hyperledger/fabric/iot/IoTAsset.java:93-98 | the five fields, labelled in the fixed order id, idCloudProvider, empreinteRadio, adresseMac, idFabricant, can be recovered from `toString` when none contains a single quote |
| IoTAssetCodec.DeserializeSerialize | asset-transfer-iot/chaincode-java/src/main/java/org/hyperledger/fabric/iot/IoTAssetManage.java:100 | deserializing the serializer's text for an asset gives back that asset |
| IoTAssetCodec.JsonGensonReadsBack | asset-transfer-iot/chaincode-java/src/main/java/org/hyperledger/fabric/iot/IoTAssetManage.java:27 | the serializer's format meets what the contract assumes: non-empty text that reads back as the same asset |
| IoTAssetCodec.Serialize | asset-transfer-iot/chaincode-java/src/main/java/org/hyperledger/fabric/iot/IoTAssetManage.java:83 | the serialized text of an asset is non-empty and parses to its five properties in alphabetical order |
| IoTAssetCodec.Deserialize | asset-transfer-iot/chaincode-java/src/main/java/org/hyperledger/fabric/iot/IoTAssetManage.java:100 | text deserializes exactly when it is a flat JSON object with all five properties, and each field of the asset is the property of the same name |
| IoTAssetManage.PutAssetPreservesWellFormed | asset-transfer-iot/chaincode-java/src/main/java/org/hyperledger/fabric/iot/IoTAssetManage.java:82-84 | writing an asset under its own id keeps every stored value an asset with its key as id, and the asset then reads back |
| IoTAssetManage.InitLedger | asset-transfer-iot/chaincode-java/src/main/java/org/hyperledger/fabric/iot/IoTAssetManage.java:42-53 | seeding writes each seed asset, serialized, under its id, in order, without an existence check |
| IoTAssetManage.PutAssetsWellFormed | asset-transfer-iot/chaincode-java/src/main/java/org/hyperledger/fabric/iot/IoTAssetManage.java:49-52 | seeding any ledger leaves each seeded asset present and reading back as itself when the ids are distinct, and keeps the invariant of a ledger that had it |
| IoTAssetManage.InitLedgerSeeds | asset-transfer-iot/chaincode-java/src/main/java/org/hyperledger/fabric/iot/IoTAssetManage.java:42-53 | after seeding any ledger, "SN-1" and "SN-2" exist and hold the listed assets, no other key is added, and a ledger that kept the invariant still keeps it |
| IoTAssetManage.IoTAssetExists | asset-transfer-iot/chaincode-java/src/main/java/org/hyperledger/fabric/iot/IoTAssetManage.java:177-180 | an id exists exactly when a non-empty value is stored under it |
| IoTAssetManage.CreateIoTAsset | asset-transfer-iot/chaincode-java/src/main/java/org/hyperledger/fabric/iot/IoTAssetManage.java:67-87 | on an existing id: fails with already-exists and leaves the state unchanged; otherwise returns the new asset and changes only key `id`, to its serialization |
| IoTAssetManage.CreateKeepsRecords | asset-transfer-iot/chaincode-java/src/main/java/org/hyperledger/fabric/iot/IoTAssetManage.java:82-84 | a successful creation changes no record that was already present |
| IoTAssetManage.CreateTwice | asset-transfer-iot/chaincode-java/src/main/java/org/hyperledger/fabric/iot/IoTAssetManage.java:76-84 | a second creation under the same id fails whatever its other fields and writes nothing: the ledger ends as the first call left it, which is the old ledger with the first asset written if the id was absent, and unchanged otherwise; the id then exists and the invariant is kept |
| IoTAssetManage.FindFirst | asset-transfer-iot/chaincode-java/src/main/java/org/hyperledger/fabric/iot/IoTAssetManage.java:99-106 | the scan loop of a read by attribute: the first matching asset, failure at the first undecodable value, or not found |
| IoTAssetManage.ReadIoTAssetByEmpreinte | asset-transfer-iot/chaincode-java/src/main/java/org/hyperledger/fabric/iot/IoTAssetManage.java:96-107 | the read by radio fingerprint yields what the search over the full scan yields |
| IoTAssetManage.ReadIoTAssetByMac | asset-transfer-iot/chaincode-java/src/main/java/org/hyperledger/fabric/iot/IoTAssetManage.java:117-128 | the read by MAC address yields what the search over the full scan yields |
| IoTAssetManage.AnyMatch | asset-transfer-iot/chaincode-java/src/main/java/org/hyperledger/fabric/iot/IoTAssetManage.java:141-147 | the scan loop of an existence query: true at the first match, false after the last entry, failure at an undecodable value |
| IoTAssetManage.IoTAssetExistsByEmpreinte | asset-transfer-iot/chaincode-java/src/main/java/org/hyperledger/fabric/iot/IoTAssetManage.java:138-148 | the existence query by radio fingerprint yields what the existence search over the full scan yields |
| IoTAssetManage.IoTAssetExistsByMac | asset-transfer-iot/chaincode-java/src/main/java/org/hyperledger/fabric/iot/IoTAssetManage.java:158-168 | the existence query by MAC address yields what the existence search over the full scan yields |
| IoTAssetManage.FindSpecOutcome | asset-transfer-iot/chaincode-java/src/main/java/org/hyperledger/fabric/iot/IoTAssetManage.java:99-106 | a read succeeds with the asset of the first matching entry, reports not found exactly when every entry decodes and differs, and otherwise fails at the first undecodable entry |
| IoTAssetManage.ExistsAgreesWithRead | asset-transfer-iot/chaincode-java/src/main/java/org/hyperledger/fabric/iot/IoTAssetManage.java:138-168 | an existence query is true exactly when the matching read succeeds, false exactly when it reports not found, and fails with the same error otherwise |
| IoTAssetManage.ReadNeverUndecodable | asset-transfer-iot/chaincode-java/src/main/java/org/hyperledger/fabric/iot/IoTAssetManage.java:100 | on a ledger written by this contract, a read by attribute never fails to deserialize |
| IoTAssetManage.ReadNotFoundIffNoMatch | asset-transfer-iot/chaincode-java/src/main/java/org/hyperledger/fabric/iot/IoTAssetManage.java:106 | on a ledger written by this contract, a read reports not found exactly when no stored asset has the queried attribute |
| IoTAssetManage.ReadFindsSmallestMatch | asset-transfer-iot/chaincode-java/src/main/java/org/hyperledger/fabric/iot/IoTAssetManage.java:99-103 | on a ledger written by this contract, a successful read returns the asset stored under the smallest key whose asset matches |
| IoTAssetManage.DecodeAll | asset-transfer-iot/chaincode-java/src/main/java/org/hyperledger/fabric/iot/IoTAssetManage.java:193-200 | the listing loop yields the decoded assets in scan order, or fails at the first undecodable entry |
| IoTAssetManage.DecodeSpecOutcome | asset-transfer-iot/chaincode-java/src/main/java/org/hyperledger/fabric/iot/IoTAssetManage.java:197-200 | the listing succeeds exactly when every entry decodes, and then lists one asset per entry, in order |
| IoTAssetManage.GetAllIoTAssets | asset-transfer-iot/chaincode-java/src/main/java/org/hyperledger/fabric/iot/IoTAssetManage.java:190-203 | the listing is the decoding of the full range scan |
| IoTAssetManage.ListOnWellFormed | asset-transfer-iot/chaincode-java/src/main/java/org/hyperledger/fabric/iot/IoTAssetManage.java:190-203 | on a ledger written by this contract the listing succeeds with one asset per stored key, strictly ascending by id, each the asset stored under its id |
| IoTAssetManage.ListFollowsScan | asset-transfer-iot/chaincode-java/src/main/java/org/hyperledger/fabric/iot/IoTAssetManage.java:195-200 | the i-th listed asset is the one stored under the i-th scanned key |
| JsRecords.StoredText | asset-transfer-basic/chaincode-javascript/lib/assetTransfer.js:63 | the stored text of a record is never empty, so a stored record always exists |
| JsRecords.DecodeEntry | asset-transfer-basic/chaincode-javascript/lib/assetTransfer.js:144-149 | a listed value is a record exactly when it parses, holding the parsed members, and otherwise its own raw text |
| JsRecords.StoredTextReadsBack | asset-transfer-basic/chaincode-javascript/lib/assetTransfer.js:144-149 | a stored record lists as a parsed record, never as raw text, with its members sorted by name |
| JsRecords.StoredTextLookup | asset-transfer-basic/chaincode-javascript/lib/assetTransfer.js:63 | every property of a stored record keeps its value |
| JsRecords.Listing | asset-transfer-basic/chaincode-javascript/lib/assetTransfer.js:138-152 | a listing has one element per scanned entry: the parsed value, or its raw text |
| JsRecords.CollectRecords | asset-transfer-basic/chaincode-javascript/lib/assetTransfer.js:138-152 | the listing loop pushes, for each scanned entry in order, its parsed value or its raw text |
| JsRecords.ListingOfState | asset-transfer-basic/chaincode-javascript/lib/assetTransfer.js:137-154 | a listing of the ledger has exactly one element per stored key, the decoding of the value under that key |
| JsRecords.ListingRawIffUnparsed | asset-transfer-basic/chaincode-javascript/lib/assetTransfer.js:144-149 | an element is raw text exactly when its stored value does not parse |
| AssetTransfer.SeedRecord | asset-transfer-basic/chaincode-javascript/lib/assetTransfer.js:38 | a seed object with `docType` added has distinct property names |
| AssetTransfer.SeedWrites | asset-transfer-basic/chaincode-javascript/lib/assetTransfer.js:40 | one write per seed object, under its id, of its properties in sorted order |
| AssetTransfer.SeedRecordCanonical | asset-transfer-basic/chaincode-javascript/lib/assetTransfer.js:40 | the canonical form of a seed record puts `docType` second among its six sorted properties |
| AssetTransfer.SeedWritesCanonical | asset-transfer-basic/chaincode-javascript/lib/assetTransfer.js:37-41 | each seeding write stores the canonical text of the seed record with `docType` |
| AssetTransfer.SeedRecordReadsBack | asset-transfer-basic/chaincode-javascript/lib/assetTransfer.js:40 | a stored seed record lists as a parsed record with its six properties sorted |
| AssetTransfer.SeedRecordMatches | asset-transfer-basic/chaincode-javascript/lib/assetTransfer.js:38 | a listed seed record has `docType` "asset" and matches its fingerprint and its MAC address |
| AssetTransfer.SeedWritesKeys | asset-transfer-basic/chaincode-javascript/lib/assetTransfer.js:37-41 | seeding writes go to the seeds' ids, distinct when the ids are distinct |
| AssetTransfer.SeedingEffect | asset-transfer-basic/chaincode-javascript/lib/assetTransfer.js:37-41 | seeding adds or overwrites exactly the seed ids, each then listing as its seed record, and leaves every other key unchanged |
| AssetTransfer.SeedIds | asset-transfer-basic/chaincode-javascript/lib/assetTransfer.js:20-35 | the seed objects have the distinct ids "SN-1" and "SN-2" |
| AssetTransfer.InitLedger | asset-transfer-basic/chaincode-javascript/lib/assetTransfer.js:19-42 | seeding writes keys "SN-1" and "SN-2" and no other, each listing as its seed record with `docType` |
| AssetTransfer.AssetExists | asset-transfer-basic/chaincode-javascript/lib/assetTransfer.js:102-105 | an id exists exactly when a non-empty value is stored under it |
| AssetTransfer.CreateAsset | asset-transfer-basic/chaincode-javascript/lib/assetTransfer.js:48-65 | on an existing id: fails with already-exists and writes nothing; otherwise stores the canonical text of exactly the five given properties under `id`, changes no other key, and returns the properties in declaration order |
| AssetTransfer.CreatedRecordReadsBack | asset-transfer-basic/chaincode-javascript/lib/assetTransfer.js:63 | a created asset lists as a parsed record with its five properties sorted |
| AssetTransfer.CreatedRecordMatches | asset-transfer-basic/chaincode-javascript/lib/assetTransfer.js:55-61 | a created record has no `docType` and matches its fingerprint and its MAC address |
| AssetTransfer.CreatedTextIsCanonical | asset-transfer-basic/chaincode-javascript/lib/assetTransfer.js:63 | the stored text of an asset does not depend on the order its properties are supplied in |
| AssetTransfer.FirstMatchOutcome | asset-transfer-basic/chaincode-javascript/lib/assetTransfer.js:75-80 | a read returns the first matching element of the listing, every earlier one not matching, and finds nothing exactly when no element matches |
| AssetTransfer.ExistsAgreesWithRead | asset-transfer-basic/chaincode-javascript/lib/assetTransfer.js:110-131 | an existence query is true exactly when the matching read finds a record |
| AssetTransfer.FindRecord | asset-transfer-basic/chaincode-javascript/lib/assetTransfer.js:75-80 | the search loop of a read returns the first matching record of the listing |
| AssetTransfer.HasRecord | asset-transfer-basic/chaincode-javascript/lib/assetTransfer.js:112-117 | the search loop of an existence query is true exactly when some element matches |
| AssetTransfer.ReadAssetByEmpreinte | asset-transfer-basic/chaincode-javascript/lib/assetTransfer.js:70-81 | the read by radio fingerprint yields the first matching record of the ledger's listing, or not found |
| AssetTransfer.ReadAssetByMac | asset-transfer-basic/chaincode-javascript/lib/assetTransfer.js:86-97 | the read by MAC address yields the first matching record of the ledger's listing, or not found |
| AssetTransfer.AssetExistsByEmpreinte | asset-transfer-basic/chaincode-javascript/lib/assetTransfer.js:110-118 | the existence query by radio fingerprint is true exactly when some listed record matches |
| AssetTransfer.AssetExistsByMac | asset-transfer-basic/chaincode-javascript/lib/assetTransfer.js:123-131 | the existence query by MAC address is true exactly when some listed record matches |
| AssetTransfer.ReadByOnState | asset-transfer-basic/chaincode-javascript/lib/assetTransfer.js:70-97 | a read succeeds exactly when some stored value parses to a matching record, and returns the one under the smallest such key; raw values never match |
| AssetTransfer.ReadByFound | asset-transfer-basic/chaincode-javascript/lib/assetTransfer.js:75-78 | a successful read took its record from the smallest matching key |
| AssetTransfer.ReadByMissing | asset-transfer-basic/chaincode-javascript/lib/assetTransfer.js:80 | a read that fails found no stored matching record |
| AssetTransfer.CreateThenRead | asset-transfer-basic/chaincode-javascript/lib/assetTransfer.js:48-81 | after a creation, reads by the new asset's fingerprint and by its MAC address both succeed |
| AssetTransfer.GetAllAssets | asset-transfer-basic/chaincode-javascript/lib/assetTransfer.js:137-154 | the listing is the decoding of the full range scan, one element per key in ascending order |
| AssetTransferPublic.HashRecordReadsBack | asset-handle-public/chaincode-javascript/lib/assetTransferPublic.js:40-41 | a hash record's stored text is its `JSON.stringify` text, and lists back as the record |
| AssetTransferPublic.HashWrite | asset-handle-public/chaincode-javascript/lib/assetTransferPublic.js:26 | a registration write goes under the digest and lists as the record naming that digest |
| AssetTransferPublic.PutHashKeepsKeyed | asset-handle-public/chaincode-javascript/lib/assetTransferPublic.js:40-41 | writing a digest's record keeps every key holding the record that names it, and adds only that key |
| AssetTransferPublic.HashWrites | asset-handle-public/chaincode-javascript/lib/assetTransferPublic.js:18-27 | one write per input, under the input's digest |
| AssetTransferPublic.HashWritesKeys | asset-handle-public/chaincode-javascript/lib/assetTransferPublic.js:25-27 | the seeding writes go to exactly the digests of the inputs |
| AssetTransferPublic.SeedingEffect | asset-handle-public/chaincode-javascript/lib/assetTransferPublic.js:17-28 | seeding adds exactly the inputs' digests as keys, each then holding its own record, changes no other key, and keeps the registry invariant |
| AssetTransferPublic.InitLedger | asset-handle-public/chaincode-javascript/lib/assetTransferPublic.js:17-28 | seeding writes the four default digests and keeps the registry invariant |
| AssetTransferPublic.AssetHashExists | asset-handle-public/chaincode-javascript/lib/assetTransferPublic.js:57-60 | a digest is registered exactly when a non-empty value is stored under it |
| AssetTransferPublic.StoreAssetHash | asset-handle-public/chaincode-javascript/lib/assetTransferPublic.js:33-43 | when the digest is registered: fails and writes nothing; otherwise stores the record under its own digest, changes nothing else, and returns the record's JSON text |
| AssetTransferPublic.StoreKeepsKeyed | asset-handle-public/chaincode-javascript/lib/assetTransferPublic.js:40-41 | a registration keeps the registry invariant |
| AssetTransferPublic.ReportsDiffer | asset-handle-public/chaincode-javascript/lib/assetTransferPublic.js:51 | a report names its digest and tells a match from no match |
| AssetTransferPublic.Report | asset-handle-public/chaincode-javascript/lib/assetTransferPublic.js:51 | a report opens with "Correspondance " followed by the digest, and ends with a full stop |
| AssetTransferPublic.VerifyAssetHash | asset-handle-public/chaincode-javascript/lib/assetTransferPublic.js:48-52 | verification writes nothing and reports a match exactly when the input's digest is registered |
| AssetTransferPublic.StoreTwiceThenVerify | asset-handle-public/chaincode-javascript/lib/assetTransferPublic.js:33-52 | a second registration of the same input fails and writes nothing: the ledger ends as the first call left it, which is the old ledger plus the digest record if the digest was new, and unchanged otherwise; the input then verifies as a match |
| AssetTransferPublic.GetAllAssets | asset-handle-public/chaincode-javascript/lib/assetTransferPublic.js:67-84 | the listing is the decoding of the full range scan, one element per key in ascending order |
| AssetTransferPublic.ListingOfRegistry | asset-handle-public/chaincode-javascript/lib/assetTransferPublic.js:67-84 | on a registry that keeps the invariant, the listing has one hash record per key, naming that key, in key order |

## Left out

- Genson is not modelled byte for byte.
  - The contract's proofs assume only `ReadsBack` of the injected serializer.
  - `JsonGenson` models its format as a flat JSON object with properties in alphabetical order.
  - A missing property is a decode failure rather than a Java `null` field.
- Java `null`: null field values are not modelled, so neither is the `NullPointerException` a scan raises on an asset with a null attribute.
- IoTAssetManage.GetAllIoTAssets: returns the list of assets. The final `genson.serialize` of that list to JSON text is not modelled.
- The JavaScript reads by attribute return the matching record's members rather than their `JSON.stringify` text.
- `JSON.stringify(allResults)` and the `JSON.parse` of it at the start of each read: the JavaScript listing is kept as a sequence of entries.
- Bytes: values are text. UTF-8 encoding and `Buffer` conversion are not modelled.
- JSON values: only flat objects with string values are parsed.
  - Any other JSON (numbers, nesting, arrays) lists as raw text in JavaScript and is a decode failure in Java.
  - Surrogate pairs written as `\u` escapes are not decoded.
  - JavaScript's placement of integer-like property names first is not modelled.
  - `sortKeysRecursive` compares UTF-16 code units, while `Canonicalize` compares code points; the two differ only for characters outside the Basic Multilingual Plane.
- Duplicate member names: `Lookup` takes the last one, as `JSON.parse` does.
- Error message texts are not modelled, except the two reports of `VerifyAssetHash`. `console.log` in the listing is not modelled.
- Fabric plumbing is replaced by the `WorldState` class: transaction context, `async`/`await`, iterators, concurrency, and the MVCC resolution of concurrent creations.
- SHA-256 is an injected function.
  - Only determinism and 64 lowercase hex digits are assumed.
  - If two default inputs collided, seeding would add fewer than four keys; `SeedingEffect` states the keys as the set of digests.
- IoTAssetManage.CreateTwice: requires `ReadsBack` of the serializer. With a serializer that could write empty text, a second creation would find the key absent and succeed.
- asset-handle-public/chaincode-javascript/index.js is not part of this model. It is module bootstrapping only, and it exports the undefined name `assetTransferPublic`.
- AssetTransfer.ReadByOnState: its statement about any ledger holds for ledgers whose values are flat JSON objects with string values, or not JSON at all. The same goes for `ReadAssetByEmpreinte`, `ReadAssetByMac`, `AssetExistsByEmpreinte` and `AssetExistsByMac`. These chaincodes never write other values. A stored JSON `null` parses in the source, and reading a property of it throws a `TypeError` when a read or existence query reaches it before a match; the model lists it as raw text and passes over it. A stored object with nested or non-string members whose `empreinteRadio` or `adresseMac` equals the query is found by the source; the model lists it as raw text and never matches it.
- The empty key is not reserved. The model's `PutState` accepts it, so `CreateIoTAsset` and `CreateAsset` accept the id `""`, and `Scan` lists it first. Any rejection of the empty key by the ledger itself is not modelled.
