/**
  The JavaScript IoT asset contract. An asset is a plain object with the same five properties
  as the Java record; it is stored under its `id` in canonical form (members sorted by name).
  Reads and existence queries by radio fingerprint or MAC address list the whole ledger and
  stop at the first parsed record whose property equals the query; a value kept as raw text
  never matches, and a listing never fails.
 */
module AssetTransfer {
  import opened Wrappers
  import opened KeyOrder
  import opened Ledger
  import opened JsonText
  import opened Canonical
  import opened IoTAssetRecord
  import opened JsRecords

  datatype Error =
    | AssetAlreadyExists(id: string)
    | AssetNotFound(property: string, query: string)

  const EmpreinteRadio: string := "empreinteRadio"
  const AdresseMac: string := "adresseMac"

  // ---------------------------------------------------------------- InitLedger

  const Seeds: seq<IoTAsset> := [
    IoTAsset("SN-1", "cloud_provider_1", "empreinte1", "00:0a:95:9d:68:16", "fabricant_1"),
    IoTAsset("SN-2", "cloud_provider_2", "empreinte2", "00:0a:95:9d:68:17", "fabricant_1")
  ]

  /** A seed object after `asset.docType = 'asset'`: its five properties, then the document type. */
  function SeedRecord(a: IoTAsset): (fs: seq<Field>)
    ensures DistinctNames(fs)
  {
    var fs := AssetFields(a) + [Field("docType", "asset")];
    AssetFieldNames(a);
    assert "docType" !in NameSet(AssetFields(a));
    assert forall i :: 0 <= i < |AssetFields(a)| ==> AssetFields(a)[i] in AssetFields(a);
    fs
  }

  /** A seed record's properties sorted by name: `docType` second. */
  function SortedSeedFields(a: IoTAsset): seq<Field> {
    [Field("adresseMac", a.adresseMac), Field("docType", "asset"), Field("empreinteRadio", a.empreinteRadio),
     Field("id", a.id), Field("idCloudProvider", a.idCloudProvider), Field("idFabricant", a.idFabricant)]
  }

  /** The writes of the seeding loop: each seed record, written with its properties sorted, under its id. */
  function SeedWrites(assets: seq<IoTAsset>): (w: seq<KV>)
    ensures |w| == |assets|
    ensures forall i :: 0 <= i < |w| ==> w[i] == KV(assets[i].id, Stringify(SortedSeedFields(assets[i])))
  {
    seq(|assets|, i requires 0 <= i < |assets| => KV(assets[i].id, Stringify(SortedSeedFields(assets[i]))))
  }

  lemma SortedSeedFieldsStrictlySorted(a: IoTAsset)
    ensures StrictlySortedByName(SortedSeedFields(a))
  {
    var g := SortedSeedFields(a);
    assert Less(g[0].name, g[1].name) && Less(g[1].name, g[2].name) && Less(g[2].name, g[3].name);
    assert Less(g[3].name, g[4].name) && Less(g[4].name, g[5].name);
    StrictlySortedFromConsecutive(g);
  }

  lemma SortedSeedFieldsPermuteSeed(a: IoTAsset)
    ensures multiset(SortedSeedFields(a)) == multiset(SeedRecord(a))
  {
    var g, d := SortedSeedFields(a), SeedRecord(a);
    assert g == [d[3], d[5], d[2], d[0], d[1], d[4]];
    assert d == [d[0], d[1], d[2], d[3], d[4], d[5]];
    assert multiset(g) == multiset{d[0], d[1], d[2], d[3], d[4], d[5]};
  }

  /** The canonical form of a seed record is its six properties sorted by name. */
  lemma SeedRecordCanonical(a: IoTAsset)
    ensures Canonicalize(SeedRecord(a)) == SortedSeedFields(a)
  {
    SortedSeedFieldsStrictlySorted(a);
    SortedSeedFieldsPermuteSeed(a);
    SortedUnique(SortedSeedFields(a), Canonicalize(SeedRecord(a)));
  }

  /** Each seeding write is the seed record with `docType` added, in canonical form, under the seed's id. */
  lemma SeedWritesCanonical(assets: seq<IoTAsset>)
    ensures forall i :: 0 <= i < |assets| ==>
      SeedWrites(assets)[i] == KV(assets[i].id, StoredText(SeedRecord(assets[i])))
  {
    forall i | 0 <= i < |assets|
      ensures SeedWrites(assets)[i].value == StoredText(SeedRecord(assets[i]))
    {
      SeedRecordCanonical(assets[i]);
    }
  }

  /** A stored seed record lists as a parsed record, not as raw text, with its six properties sorted by name. */
  lemma SeedRecordReadsBack(a: IoTAsset)
    ensures DecodeEntry(StoredText(SeedRecord(a))) == Record(SortedSeedFields(a))
  {
    SeedRecordCanonical(a);
    StoredTextReadsBack(SeedRecord(a));
  }

  /** A listed seed record carries `docType` `"asset"` and is found by its fingerprint and by its MAC address. */
  lemma SeedRecordMatches(a: IoTAsset)
    ensures Lookup(SortedSeedFields(a), "docType") == Some("asset")
    ensures Matches(Record(SortedSeedFields(a)), EmpreinteRadio, a.empreinteRadio)
    ensures Matches(Record(SortedSeedFields(a)), AdresseMac, a.adresseMac)
  {
    var g := SortedSeedFields(a);
    SortedSeedFieldsStrictlySorted(a);
    LookupDistinct(g, 0);
    LookupDistinct(g, 1);
    LookupDistinct(g, 2);
  }

  function Ids(assets: seq<IoTAsset>): set<string> {
    set i | 0 <= i < |assets| :: assets[i].id
  }

  predicate DistinctIds(assets: seq<IoTAsset>) {
    forall i, j :: 0 <= i < j < |assets| ==> assets[i].id != assets[j].id
  }

  /** The seeding writes go to the objects' ids, so they go to distinct keys when the ids are distinct. */
  lemma SeedWritesKeys(assets: seq<IoTAsset>)
    ensures WriteKeys(SeedWrites(assets)) == Ids(assets)
    ensures DistinctIds(assets) ==> DistinctKeys(SeedWrites(assets))
  {
    var w := SeedWrites(assets);
    forall i | 0 <= i < |w|
      ensures w[i].key == assets[i].id
    {
    }
  }

  /** A seeded object sits under its id, where it lists as a parsed record carrying its document type. */
  lemma SeedWriteEffect(st: State, assets: seq<IoTAsset>, i: nat)
    requires DistinctIds(assets) && i < |assets|
    ensures var st' := PutAll(st, SeedWrites(assets));
      assets[i].id in st' && DecodeEntry(st'[assets[i].id]) == Record(SortedSeedFields(assets[i]))
  {
    var w := SeedWrites(assets);
    SeedWritesKeys(assets);
    PutAllAt(st, w, i);
    ParseStringify(SortedSeedFields(assets[i]));
  }

  /**
    What seeding `assets` does to a ledger: exactly their ids are added or overwritten, each
    then listing as its seed record, and every other key keeps its value.
   */
  ghost predicate Seeded(st: State, st': State, assets: seq<IoTAsset>) {
    && st'.Keys == st.Keys + Ids(assets)
    && (forall i :: 0 <= i < |assets| ==>
          assets[i].id in st' && DecodeEntry(st'[assets[i].id]) == Record(SortedSeedFields(assets[i])))
    && (forall k :: k in st && k !in Ids(assets) ==> st'[k] == st[k])
  }

  /** Seeding objects with distinct ids has exactly the effect `Seeded` describes. */
  lemma SeedingEffect(st: State, assets: seq<IoTAsset>)
    requires DistinctIds(assets)
    ensures Seeded(st, PutAll(st, SeedWrites(assets)), assets)
  {
    SeedWritesKeys(assets);
    PutAllEffect(st, SeedWrites(assets));
    forall i | 0 <= i < |assets|
      ensures var st' := PutAll(st, SeedWrites(assets));
        assets[i].id in st' && DecodeEntry(st'[assets[i].id]) == Record(SortedSeedFields(assets[i]))
    {
      SeedWriteEffect(st, assets, i);
    }
  }

  /** The seed objects have the distinct ids "SN-1" and "SN-2". */
  lemma SeedIds()
    ensures DistinctIds(Seeds) && Ids(Seeds) == {"SN-1", "SN-2"}
  {
    assert Seeds[0].id == "SN-1" && Seeds[1].id == "SN-2";
  }

  /**
    Writes each seed object, with its document type added, in canonical form under its id:
    the keys "SN-1" and "SN-2" are added or overwritten and nothing else changes.
   */
  method InitLedger(ledger: WorldState)
    modifies ledger
    ensures ledger.state == PutAll(old(ledger.state), SeedWrites(Seeds))
    ensures Seeded(old(ledger.state), ledger.state, Seeds) && Ids(Seeds) == {"SN-1", "SN-2"}
  {
    var seeds := Seeds;
    var writes := SeedWrites(seeds);
    PutEach(ledger, writes);
    SeedIds();
    SeedingEffect(old(ledger.state), seeds);
  }

  // ---------------------------------------------------------------- existence and creation

  method AssetExists(ledger: WorldState, id: string) returns (b: bool)
    ensures b <==> Present(ledger.state, id)
  {
    var assetJSON := ledger.GetState(id);
    b := |assetJSON| > 0;
  }

  /**
    Creates an asset under key `id` unless that key already holds a value. On failure nothing
    is written; on success exactly key `id` changes, to the asset in canonical form, and the
    result is the asset's JSON text with its properties in declaration order.
   */
  method CreateAsset(ledger: WorldState, id: string, idCloudProvider: string, empreinteRadio: string,
                     adresseMac: string, idFabricant: string)
    returns (r: Result<string, Error>)
    modifies ledger
    ensures Present(old(ledger.state), id) ==>
      r == Failure(AssetAlreadyExists(id)) && ledger.state == old(ledger.state)
    ensures !Present(old(ledger.state), id) ==>
      var asset := AssetFields(IoTAsset(id, idCloudProvider, empreinteRadio, adresseMac, idFabricant));
      && r == Success(Stringify(asset))
      && ledger.state == old(ledger.state)[id := StoredText(asset)]
  {
    var exists_ := AssetExists(ledger, id);
    if exists_ {
      return Failure(AssetAlreadyExists(id));
    }
    var asset := AssetFields(IoTAsset(id, idCloudProvider, empreinteRadio, adresseMac, idFabricant));
    ledger.PutState(id, StoredText(asset));
    return Success(Stringify(asset));
  }

  /** A created asset is stored with its five properties sorted by name. */
  lemma CreatedRecordReadsBack(a: IoTAsset)
    ensures DecodeEntry(StoredText(AssetFields(a))) == Record(SortedFields(a))
  {
    SortedFieldsAreCanonical(a);
    StoredTextReadsBack(AssetFields(a));
  }

  /**
    A listed created record has no `docType` (only seeding adds one) and is found by its
    fingerprint and by its MAC address.
   */
  lemma CreatedRecordMatches(a: IoTAsset)
    ensures Lookup(SortedFields(a), "docType") == None
    ensures Matches(Record(SortedFields(a)), EmpreinteRadio, a.empreinteRadio)
    ensures Matches(Record(SortedFields(a)), AdresseMac, a.adresseMac)
  {
    var g := SortedFields(a);
    SortedFieldsStrictlySorted(a);
    LookupDistinct(g, 0);
    LookupDistinct(g, 1);
  }

  /** The stored text of an asset does not depend on the order its properties are supplied in. */
  lemma CreatedTextIsCanonical(a: IoTAsset, fs: seq<Field>)
    requires multiset(fs) == multiset(AssetFields(a))
    ensures StoredText(fs) == StoredText(AssetFields(a))
  {
    CanonicalizeDeterministic(AssetFields(a), fs);
  }

  // ---------------------------------------------------------------- reads and existence by property

  /** The listing element is a parsed record whose property `name` is the query; raw text never is. */
  predicate Matches(e: Entry, name: string, q: string) {
    e.Record? && Lookup(e.fields, name) == Some(q)
  }

  /** The first record of a listing whose property `name` is the query, or `None`. */
  function FirstMatch(es: seq<Entry>, name: string, q: string): Option<seq<Field>>
    decreases |es|
  {
    if es == [] then None
    else if Matches(es[0], name, q) then Some(es[0].fields)
    else FirstMatch(es[1..], name, q)
  }

  /** Whether some record of a listing has property `name` equal to the query. */
  function AnyMatch(es: seq<Entry>, name: string, q: string): bool
    decreases |es|
  {
    if es == [] then false
    else Matches(es[0], name, q) || AnyMatch(es[1..], name, q)
  }

  /**
    A read succeeds with the first matching record of the listing: every element before it
    does not match. It finds nothing exactly when no element matches.
   */
  lemma {:induction false} FirstMatchOutcome(es: seq<Entry>, name: string, q: string)
    ensures FirstMatch(es, name, q).Some? ==>
      exists i :: 0 <= i < |es| && Matches(es[i], name, q) && es[i].fields == FirstMatch(es, name, q).value
                  && forall j :: 0 <= j < i ==> !Matches(es[j], name, q)
    ensures FirstMatch(es, name, q).None? <==> forall i :: 0 <= i < |es| ==> !Matches(es[i], name, q)
    decreases |es|
  {
    if es != [] {
      FirstMatchOutcome(es[1..], name, q);
      if !Matches(es[0], name, q) {
        if FirstMatch(es, name, q).Some? {
          var i :| 0 <= i < |es[1..]| && Matches(es[1..][i], name, q) && es[1..][i].fields == FirstMatch(es, name, q).value
                   && forall j :: 0 <= j < i ==> !Matches(es[1..][j], name, q);
          assert es[i + 1] == es[1..][i];
          forall j | 0 <= j < i + 1
            ensures !Matches(es[j], name, q)
          {
            if j > 0 {
              assert es[j] == es[1..][j - 1];
            }
          }
        } else {
          forall i | 0 <= i < |es|
            ensures !Matches(es[i], name, q)
          {
            if i > 0 {
              assert es[i] == es[1..][i - 1];
            }
          }
        }
      }
    }
  }

  /** An existence query is true exactly when the matching read finds a record. */
  lemma {:induction false} ExistsAgreesWithRead(es: seq<Entry>, name: string, q: string)
    ensures AnyMatch(es, name, q) <==> FirstMatch(es, name, q).Some?
    decreases |es|
  {
    if es != [] {
      ExistsAgreesWithRead(es[1..], name, q);
    }
  }

  /** The search loop of a read by property. */
  method FindRecord(allAssets: seq<Entry>, name: string, q: string) returns (r: Option<seq<Field>>)
    ensures r == FirstMatch(allAssets, name, q)
  {
    var i := 0;
    while i < |allAssets|
      invariant 0 <= i <= |allAssets|
      invariant FirstMatch(allAssets, name, q) == FirstMatch(allAssets[i..], name, q)
    {
      assert allAssets[i..][1..] == allAssets[i + 1..];
      var asset := allAssets[i];
      if asset.Record? && Lookup(asset.fields, name) == Some(q) {
        return Some(asset.fields);
      }
      i := i + 1;
    }
    return None;
  }

  /** The search loop of an existence query by property. */
  method HasRecord(allAssets: seq<Entry>, name: string, q: string) returns (b: bool)
    ensures b == AnyMatch(allAssets, name, q)
  {
    var i := 0;
    while i < |allAssets|
      invariant 0 <= i <= |allAssets|
      invariant AnyMatch(allAssets, name, q) == AnyMatch(allAssets[i..], name, q)
    {
      assert allAssets[i..][1..] == allAssets[i + 1..];
      var asset := allAssets[i];
      if asset.Record? && Lookup(asset.fields, name) == Some(q) {
        return true;
      }
      i := i + 1;
    }
    return false;
  }

  /** What a read by property returns on a ledger: the first matching record in key order, or not found. */
  function ReadBy(st: State, name: string, q: string): Result<seq<Field>, Error> {
    match FirstMatch(Listing(Scan(st)), name, q)
    case Some(fs) => Success(fs)
    case None => Failure(AssetNotFound(name, q))
  }

  method ReadAssetByEmpreinte(ledger: WorldState, empreinteRadio: string) returns (r: Result<seq<Field>, Error>)
    ensures r == ReadBy(ledger.state, EmpreinteRadio, empreinteRadio)
  {
    var allAssets := GetAllAssets(ledger);
    var found := FindRecord(allAssets, EmpreinteRadio, empreinteRadio);
    if found.None? {
      return Failure(AssetNotFound(EmpreinteRadio, empreinteRadio));
    }
    return Success(found.value);
  }

  method ReadAssetByMac(ledger: WorldState, adresseMac: string) returns (r: Result<seq<Field>, Error>)
    ensures r == ReadBy(ledger.state, AdresseMac, adresseMac)
  {
    var allAssets := GetAllAssets(ledger);
    var found := FindRecord(allAssets, AdresseMac, adresseMac);
    if found.None? {
      return Failure(AssetNotFound(AdresseMac, adresseMac));
    }
    return Success(found.value);
  }

  method AssetExistsByEmpreinte(ledger: WorldState, empreinteRadio: string) returns (b: bool)
    ensures b == AnyMatch(Listing(Scan(ledger.state)), EmpreinteRadio, empreinteRadio)
  {
    var allAssets := GetAllAssets(ledger);
    b := HasRecord(allAssets, EmpreinteRadio, empreinteRadio);
  }

  method AssetExistsByMac(ledger: WorldState, adresseMac: string) returns (b: bool)
    ensures b == AnyMatch(Listing(Scan(ledger.state)), AdresseMac, adresseMac)
  {
    var allAssets := GetAllAssets(ledger);
    b := HasRecord(allAssets, AdresseMac, adresseMac);
  }

  /** The stored text under `k` parses to a record whose property `name` is the query. */
  predicate StoredMatch(st: State, k: string, name: string, q: string)
    requires k in st
  {
    Matches(DecodeEntry(st[k]), name, q)
  }

  /**
    A read by property on any ledger: it finds a record exactly when some stored value parses
    to a record whose property is the query, and then returns the record stored under the
    smallest such key. Values that are not JSON records are skipped, never reported.
   */
  lemma ReadByOnState(st: State, name: string, q: string)
    ensures ReadBy(st, name, q).Success? <==> exists k :: k in st && StoredMatch(st, k, name, q)
    ensures ReadBy(st, name, q).Success? ==>
      exists k :: k in st && StoredMatch(st, k, name, q) && DecodeEntry(st[k]).fields == ReadBy(st, name, q).value
                  && forall k' :: k' in st && Less(k', k) ==> !StoredMatch(st, k', name, q)
  {
    if ReadBy(st, name, q).Success? {
      var k := ReadByFound(st, name, q);
    } else {
      ReadByMissing(st, name, q);
    }
  }

  /** The key a successful read by property took its record from: the smallest matching key. */
  lemma ReadByFound(st: State, name: string, q: string) returns (k: string)
    requires ReadBy(st, name, q).Success?
    ensures k in st && StoredMatch(st, k, name, q) && DecodeEntry(st[k]).fields == ReadBy(st, name, q).value
    ensures forall k' :: k' in st && Less(k', k) ==> !StoredMatch(st, k', name, q)
  {
    var kvs := Scan(st);
    var es := Listing(kvs);
    FirstMatchOutcome(es, name, q);
    var i :| 0 <= i < |es| && Matches(es[i], name, q) && es[i].fields == ReadBy(st, name, q).value
             && forall j :: 0 <= j < i ==> !Matches(es[j], name, q);
    k := kvs[i].key;
    forall k' | k' in st && Less(k', k)
      ensures !StoredMatch(st, k', name, q)
    {
      var j := ScanBefore(st, i, k');
      assert !Matches(es[j], name, q);
    }
  }

  /** A read by property that fails found no stored record with that property. */
  lemma ReadByMissing(st: State, name: string, q: string)
    requires ReadBy(st, name, q).Failure?
    ensures forall k :: k in st ==> !StoredMatch(st, k, name, q)
  {
    var kvs := Scan(st);
    var es := Listing(kvs);
    FirstMatchOutcome(es, name, q);
    forall k | k in st
      ensures !StoredMatch(st, k, name, q)
    {
      var i :| 0 <= i < |kvs| && kvs[i].key == k;
      assert !Matches(es[i], name, q);
    }
  }

  /**
    After a successful creation, a read by the new asset's fingerprint finds a record: the new
    one, unless a record under a smaller key has the same fingerprint.
   */
  lemma CreateThenRead(st: State, a: IoTAsset)
    ensures ReadBy(st[a.id := StoredText(AssetFields(a))], EmpreinteRadio, a.empreinteRadio).Success?
    ensures ReadBy(st[a.id := StoredText(AssetFields(a))], AdresseMac, a.adresseMac).Success?
  {
    var st' := st[a.id := StoredText(AssetFields(a))];
    CreatedRecordReadsBack(a);
    CreatedRecordMatches(a);
    assert StoredMatch(st', a.id, EmpreinteRadio, a.empreinteRadio);
    assert StoredMatch(st', a.id, AdresseMac, a.adresseMac);
    ReadByOnState(st', EmpreinteRadio, a.empreinteRadio);
    ReadByOnState(st', AdresseMac, a.adresseMac);
  }

  // ---------------------------------------------------------------- listing

  /** Lists every stored value in ascending key order: parsed records, and raw text for the rest. */
  method GetAllAssets(ledger: WorldState) returns (allResults: seq<Entry>)
    ensures allResults == Listing(Scan(ledger.state))
  {
    var results := ledger.GetStateByRange();
    allResults := CollectRecords(results);
  }
}
