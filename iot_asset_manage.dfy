/**
  The Java IoT asset contract. Assets are stored as JSON under their serial number `id`;
  lookups by radio fingerprint or MAC address scan the whole ledger in ascending key order and
  stop at the first asset whose attribute equals the query. A stored value that does not
  deserialize to an asset makes a scan fail at that entry, as the deserializer's exception
  aborts the transaction.
 */
module IoTAssetManage {
  import opened Wrappers
  import opened KeyOrder
  import opened Ledger
  import opened IoTAssetRecord
  import opened IoTAssetCodec

  datatype Error =
    | AssetNotFound(query: string)
    | AssetAlreadyExists(id: string)
    | Undecodable(key: string)

  /**
    The invariant of a ledger written only by this contract: every stored value deserializes
    to an asset, and that asset's `id` is the key it is stored under.
   */
  ghost predicate WellFormed(g: Genson, st: State) {
    forall k :: k in st ==> g.deserialize(st[k]).Some? && g.deserialize(st[k]).value.id == k
  }

  /** Writing an asset under its own id keeps the invariant, and the asset then reads back as itself. */
  lemma PutAssetPreservesWellFormed(g: Genson, st: State, a: IoTAsset)
    requires ReadsBack(g) && WellFormed(g, st)
    ensures WellFormed(g, st[a.id := g.serialize(a)])
    ensures Present(st[a.id := g.serialize(a)], a.id)
    ensures g.deserialize(st[a.id := g.serialize(a)][a.id]) == Some(a)
  {
  }

  // ---------------------------------------------------------------- InitLedger

  const Seeds: seq<IoTAsset> := [
    IoTAsset("SN-1", "cloud_provider_1", "empreinte1", "00:0a:95:9d:68:16", "fabricant_1"),
    IoTAsset("SN-2", "cloud_provider_2", "empreinte2", "00:0a:95:9d:68:17", "fabricant_1")
  ]

  /** The writes of a seeding pass: each asset, serialized, under its own id. */
  function AssetWrites(g: Genson, assets: seq<IoTAsset>): (w: seq<KV>)
    ensures |w| == |assets|
    ensures forall i :: 0 <= i < |w| ==> w[i] == KV(assets[i].id, g.serialize(assets[i]))
  {
    seq(|assets|, i requires 0 <= i < |assets| => KV(assets[i].id, g.serialize(assets[i])))
  }

  /** Writes the seed assets one after the other, each serialized under its id; other keys keep their values. */
  method InitLedger(genson: Genson, ledger: WorldState)
    modifies ledger
    ensures ledger.state == PutAll(old(ledger.state), AssetWrites(genson, Seeds))
  {
    var writes := AssetWrites(genson, Seeds);
    PutEach(ledger, writes);
  }

  /**
    Seeding any ledger leaves every seeded asset present and reading back as itself when the
    ids are distinct, and keeps the invariant of a ledger that had it.
   */
  lemma {:induction false} PutAssetsWellFormed(g: Genson, st: State, assets: seq<IoTAsset>)
    requires ReadsBack(g)
    ensures var st' := PutAll(st, AssetWrites(g, assets));
      && (WellFormed(g, st) ==> WellFormed(g, st'))
      && (DistinctKeys(AssetWrites(g, assets)) ==>
            forall i :: 0 <= i < |assets| ==> Present(st', assets[i].id) && g.deserialize(st'[assets[i].id]) == Some(assets[i]))
    decreases |assets|
  {
    if assets != [] {
      var n := |assets| - 1;
      assert AssetWrites(g, assets)[..n] == AssetWrites(g, assets[..n]);
      PutAssetsWellFormed(g, st, assets[..n]);
      if WellFormed(g, st) {
        PutAssetPreservesWellFormed(g, PutAll(st, AssetWrites(g, assets[..n])), assets[n]);
      }
      if DistinctKeys(AssetWrites(g, assets)) {
        PutAllEffect(st, AssetWrites(g, assets));
      }
    }
  }

  /**
    Seeding any ledger leaves both seed assets present and reading back, adds no other key,
    and keeps the invariant of a ledger that had it.
   */
  lemma InitLedgerSeeds(g: Genson, st: State)
    requires ReadsBack(g)
    ensures var st' := PutAll(st, AssetWrites(g, Seeds));
      && Present(st', "SN-1") && g.deserialize(st'["SN-1"]) == Some(Seeds[0])
      && Present(st', "SN-2") && g.deserialize(st'["SN-2"]) == Some(Seeds[1])
      && st'.Keys == st.Keys + {"SN-1", "SN-2"}
      && (WellFormed(g, st) ==> WellFormed(g, st'))
  {
    var w := AssetWrites(g, Seeds);
    assert DistinctKeys(w);
    PutAllEffect(st, w);
    PutAssetsWellFormed(g, st, Seeds);
    assert WriteKeys(w) == {"SN-1", "SN-2"} by {
      assert w[0] in w && w[1] in w;
    }
  }

  // ---------------------------------------------------------------- existence and creation

  method IoTAssetExists(ledger: WorldState, id: string) returns (b: bool)
    ensures b <==> id in ledger.state && |ledger.state[id]| > 0
  {
    var assetJson := ledger.GetState(id);
    b := |assetJson| > 0;
  }

  /**
    Creates an asset under key `id` unless that key already holds a value. On failure nothing
    is written; on success exactly key `id` changes, to the serialized new asset.
   */
  method CreateIoTAsset(genson: Genson, ledger: WorldState, id: string, idCloudProvider: string,
                        empreinteRadio: string, adresseMac: string, idFabricant: string)
    returns (r: Result<IoTAsset, Error>)
    modifies ledger
    ensures Present(old(ledger.state), id) ==>
      r == Failure(AssetAlreadyExists(id)) && ledger.state == old(ledger.state)
    ensures !Present(old(ledger.state), id) ==>
      && r == Success(IoTAsset(id, idCloudProvider, empreinteRadio, adresseMac, idFabricant))
      && ledger.state == old(ledger.state)[id := genson.serialize(r.value)]
  {
    var assetExists := IoTAssetExists(ledger, id);
    if assetExists {
      return Failure(AssetAlreadyExists(id));
    }
    var asset := IoTAsset(id, idCloudProvider, empreinteRadio, adresseMac, idFabricant);
    var assetJson := genson.serialize(asset);
    ledger.PutState(id, assetJson);
    return Success(asset);
  }

  /** A creation only ever adds a record: every record present before is still there, unchanged. */
  lemma CreateKeepsRecords(g: Genson, st: State, a: IoTAsset)
    requires !Present(st, a.id)
    ensures forall k :: Present(st, k) ==> Present(st[a.id := g.serialize(a)], k) && st[a.id := g.serialize(a)][k] == st[k]
  {
  }

  /**
    Create-once: whatever the other arguments, a second creation under the same id fails and
    writes nothing, so the ledger ends as the first call left it; afterwards the id exists, and
    after a successful first creation it holds the first asset.
   */
  method CreateTwice(genson: Genson, ledger: WorldState, first: IoTAsset, second: IoTAsset)
    returns (r1: Result<IoTAsset, Error>, r2: Result<IoTAsset, Error>)
    requires ReadsBack(genson) && first.id == second.id
    modifies ledger
    ensures r1.Success? <==> !Present(old(ledger.state), first.id)
    ensures r1.Success? ==> ledger.state == old(ledger.state)[first.id := genson.serialize(first)]
    ensures r1.Failure? ==> ledger.state == old(ledger.state)
    ensures r2 == Failure(AssetAlreadyExists(second.id))
    ensures Present(ledger.state, first.id)
    ensures r1.Success? ==> r1.value == first && genson.deserialize(ledger.state[first.id]) == Some(first)
    ensures WellFormed(genson, old(ledger.state)) ==> WellFormed(genson, ledger.state)
  {
    r1 := CreateIoTAsset(genson, ledger, first.id, first.idCloudProvider, first.empreinteRadio, first.adresseMac, first.idFabricant);
    if r1.Success? && WellFormed(genson, old(ledger.state)) {
      PutAssetPreservesWellFormed(genson, old(ledger.state), first);
    }
    ghost var between := ledger.state;
    r2 := CreateIoTAsset(genson, ledger, second.id, second.idCloudProvider, second.empreinteRadio, second.adresseMac, second.idFabricant);
    assert ledger.state == between;
  }

  // ---------------------------------------------------------------- scans

  datatype Selector = ByEmpreinte | ByMac

  function Attribute(a: IoTAsset, sel: Selector): string {
    match sel
    case ByEmpreinte => a.empreinteRadio
    case ByMac => a.adresseMac
  }

  /**
    What a read by attribute yields over the entries of a scan: the asset of the first entry
    whose attribute is the query, not found when there is none, or the first entry that does
    not deserialize, if the scan reaches one before a match.
   */
  ghost function FindSpec(g: Genson, kvs: seq<KV>, sel: Selector, q: string): Result<IoTAsset, Error>
    decreases |kvs|
  {
    if kvs == [] then Failure(AssetNotFound(q))
    else
      match g.deserialize(kvs[0].value)
      case None => Failure(Undecodable(kvs[0].key))
      case Some(a) => if Attribute(a, sel) == q then Success(a) else FindSpec(g, kvs[1..], sel, q)
  }

  /** What an exists-by-attribute query yields over the entries of a scan. */
  ghost function AnySpec(g: Genson, kvs: seq<KV>, sel: Selector, q: string): Result<bool, Error>
    decreases |kvs|
  {
    if kvs == [] then Success(false)
    else
      match g.deserialize(kvs[0].value)
      case None => Failure(Undecodable(kvs[0].key))
      case Some(a) => if Attribute(a, sel) == q then Success(true) else AnySpec(g, kvs[1..], sel, q)
  }

  /** The entry holds an asset whose selected attribute is the query. */
  ghost predicate Hit(g: Genson, kv: KV, sel: Selector, q: string) {
    g.deserialize(kv.value).Some? && Attribute(g.deserialize(kv.value).value, sel) == q
  }

  /** The entry holds an asset, and its selected attribute is not the query: the scan moves on. */
  ghost predicate PassedOver(g: Genson, kv: KV, sel: Selector, q: string) {
    g.deserialize(kv.value).Some? && Attribute(g.deserialize(kv.value).value, sel) != q
  }

  ghost predicate PassedOverBefore(g: Genson, kvs: seq<KV>, i: int, sel: Selector, q: string)
    requires 0 <= i <= |kvs|
  {
    forall j :: 0 <= j < i ==> PassedOver(g, kvs[j], sel, q)
  }

  /**
    The three outcomes of a read by attribute, each pinned to the scan position where it is
    decided: success at the first matching entry, not found exactly when every entry is passed
    over, and otherwise failure at the first entry that does not deserialize.
   */
  lemma {:induction false} FindSpecOutcome(g: Genson, kvs: seq<KV>, sel: Selector, q: string)
    ensures var r := FindSpec(g, kvs, sel, q);
      && (r.Success? ==> exists i :: 0 <= i < |kvs| && PassedOverBefore(g, kvs, i, sel, q) && Hit(g, kvs[i], sel, q)
                                       && g.deserialize(kvs[i].value) == Some(r.value))
      && (r == Failure(AssetNotFound(q)) <==> PassedOverBefore(g, kvs, |kvs|, sel, q))
      && (r.Failure? && r != Failure(AssetNotFound(q)) ==>
            exists i :: 0 <= i < |kvs| && PassedOverBefore(g, kvs, i, sel, q) && g.deserialize(kvs[i].value).None?
                          && r == Failure(Undecodable(kvs[i].key)))
    decreases |kvs|
  {
    if kvs != [] {
      var r := FindSpec(g, kvs, sel, q);
      var rest := kvs[1..];
      if PassedOver(g, kvs[0], sel, q) {
        FindSpecOutcome(g, rest, sel, q);
        assert r == FindSpec(g, rest, sel, q);
        forall i | 0 <= i <= |rest|
          ensures PassedOverBefore(g, rest, i, sel, q) <==> PassedOverBefore(g, kvs, i + 1, sel, q)
        {
          if PassedOverBefore(g, rest, i, sel, q) {
            forall j | 0 <= j < i + 1
              ensures PassedOver(g, kvs[j], sel, q)
            {
              if j > 0 {
                assert kvs[j] == rest[j - 1];
              }
            }
          }
          if PassedOverBefore(g, kvs, i + 1, sel, q) {
            forall j | 0 <= j < i
              ensures PassedOver(g, rest[j], sel, q)
            {
              assert rest[j] == kvs[j + 1];
            }
          }
        }
        if r.Success? {
          var i :| 0 <= i < |rest| && PassedOverBefore(g, rest, i, sel, q) && Hit(g, rest[i], sel, q)
                   && g.deserialize(rest[i].value) == Some(r.value);
          assert kvs[i + 1] == rest[i];
        } else if r != Failure(AssetNotFound(q)) {
          var i :| 0 <= i < |rest| && PassedOverBefore(g, rest, i, sel, q) && g.deserialize(rest[i].value).None?
                   && r == Failure(Undecodable(rest[i].key));
          assert kvs[i + 1] == rest[i];
        }
      } else {
        assert !PassedOverBefore(g, kvs, |kvs|, sel, q);
        assert PassedOverBefore(g, kvs, 0, sel, q);
      }
    }
  }

  /** The exists-by-attribute query is true exactly when the matching read succeeds, false exactly when it reports not found, and fails where it fails. */
  lemma {:induction false} ExistsAgreesWithRead(g: Genson, kvs: seq<KV>, sel: Selector, q: string)
    ensures AnySpec(g, kvs, sel, q) == Success(true) <==> FindSpec(g, kvs, sel, q).Success?
    ensures AnySpec(g, kvs, sel, q) == Success(false) <==> FindSpec(g, kvs, sel, q) == Failure(AssetNotFound(q))
    ensures AnySpec(g, kvs, sel, q).Failure? <==>
      FindSpec(g, kvs, sel, q).Failure? && FindSpec(g, kvs, sel, q) != Failure(AssetNotFound(q))
    ensures AnySpec(g, kvs, sel, q).Failure? ==> AnySpec(g, kvs, sel, q).error == FindSpec(g, kvs, sel, q).error
    decreases |kvs|
  {
    if kvs != [] {
      ExistsAgreesWithRead(g, kvs[1..], sel, q);
    }
  }

  /** The scan loop of a read by attribute, over the entries the range scan yields. */
  method FindFirst(genson: Genson, results: seq<KV>, sel: Selector, q: string) returns (r: Result<IoTAsset, Error>)
    ensures r == FindSpec(genson, results, sel, q)
  {
    var i := 0;
    while i < |results|
      invariant 0 <= i <= |results|
      invariant FindSpec(genson, results, sel, q) == FindSpec(genson, results[i..], sel, q)
    {
      assert results[i..][1..] == results[i + 1..];
      var asset := genson.deserialize(results[i].value);
      if asset.None? {
        return Failure(Undecodable(results[i].key));
      }
      if Attribute(asset.value, sel) == q {
        return Success(asset.value);
      }
      i := i + 1;
    }
    return Failure(AssetNotFound(q));
  }

  method ReadIoTAssetByEmpreinte(genson: Genson, ledger: WorldState, empreinteRadio: string) returns (r: Result<IoTAsset, Error>)
    ensures r == FindSpec(genson, Scan(ledger.state), ByEmpreinte, empreinteRadio)
  {
    var results := ledger.GetStateByRange();
    r := FindFirst(genson, results, ByEmpreinte, empreinteRadio);
  }

  method ReadIoTAssetByMac(genson: Genson, ledger: WorldState, adresseMac: string) returns (r: Result<IoTAsset, Error>)
    ensures r == FindSpec(genson, Scan(ledger.state), ByMac, adresseMac)
  {
    var results := ledger.GetStateByRange();
    r := FindFirst(genson, results, ByMac, adresseMac);
  }

  /** The scan loop of an exists-by-attribute query. */
  method AnyMatch(genson: Genson, results: seq<KV>, sel: Selector, q: string) returns (r: Result<bool, Error>)
    ensures r == AnySpec(genson, results, sel, q)
  {
    var i := 0;
    while i < |results|
      invariant 0 <= i <= |results|
      invariant AnySpec(genson, results, sel, q) == AnySpec(genson, results[i..], sel, q)
    {
      assert results[i..][1..] == results[i + 1..];
      var asset := genson.deserialize(results[i].value);
      if asset.None? {
        return Failure(Undecodable(results[i].key));
      }
      if Attribute(asset.value, sel) == q {
        return Success(true);
      }
      i := i + 1;
    }
    return Success(false);
  }

  method IoTAssetExistsByEmpreinte(genson: Genson, ledger: WorldState, empreinteRadio: string) returns (r: Result<bool, Error>)
    ensures r == AnySpec(genson, Scan(ledger.state), ByEmpreinte, empreinteRadio)
  {
    var results := ledger.GetStateByRange();
    r := AnyMatch(genson, results, ByEmpreinte, empreinteRadio);
  }

  method IoTAssetExistsByMac(genson: Genson, ledger: WorldState, adresseMac: string) returns (r: Result<bool, Error>)
    ensures r == AnySpec(genson, Scan(ledger.state), ByMac, adresseMac)
  {
    var results := ledger.GetStateByRange();
    r := AnyMatch(genson, results, ByMac, adresseMac);
  }

  /** Every entry of a well-formed ledger's scan holds the asset whose id is the entry's key. */
  lemma WellFormedScan(g: Genson, st: State)
    requires WellFormed(g, st)
    ensures forall i :: 0 <= i < |Scan(st)| ==>
      g.deserialize(Scan(st)[i].value).Some? && g.deserialize(Scan(st)[i].value).value.id == Scan(st)[i].key
  {
  }

  /** On a well-formed ledger a read by attribute never fails to decode: it finds an asset or reports not found. */
  lemma ReadNeverUndecodable(g: Genson, st: State, sel: Selector, q: string)
    requires WellFormed(g, st)
    ensures FindSpec(g, Scan(st), sel, q).Success? || FindSpec(g, Scan(st), sel, q) == Failure(AssetNotFound(q))
  {
    WellFormedScan(g, st);
    FindSpecOutcome(g, Scan(st), sel, q);
  }

  /** On a well-formed ledger a read by attribute reports not found exactly when no stored asset matches. */
  lemma ReadNotFoundIffNoMatch(g: Genson, st: State, sel: Selector, q: string)
    requires WellFormed(g, st)
    ensures FindSpec(g, Scan(st), sel, q) == Failure(AssetNotFound(q)) <==>
      forall k :: k in st ==> Attribute(g.deserialize(st[k]).value, sel) != q
  {
    if FindSpec(g, Scan(st), sel, q) == Failure(AssetNotFound(q)) {
      forall k | k in st
        ensures Attribute(g.deserialize(st[k]).value, sel) != q
      {
        NotFoundSkipsKey(g, st, sel, q, k);
      }
    } else if forall k :: k in st ==> Attribute(g.deserialize(st[k]).value, sel) != q {
      NoMatchIsNotFound(g, st, sel, q);
    }
  }

  lemma NotFoundSkipsKey(g: Genson, st: State, sel: Selector, q: string, k: string)
    requires WellFormed(g, st) && k in st
    requires FindSpec(g, Scan(st), sel, q) == Failure(AssetNotFound(q))
    ensures Attribute(g.deserialize(st[k]).value, sel) != q
  {
    var kvs := Scan(st);
    FindSpecOutcome(g, kvs, sel, q);
    var j :| 0 <= j < |kvs| && kvs[j].key == k;
    assert kvs[j].value == st[k];
    assert PassedOver(g, kvs[j], sel, q);
  }

  lemma NoMatchIsNotFound(g: Genson, st: State, sel: Selector, q: string)
    requires WellFormed(g, st)
    requires forall k :: k in st ==> Attribute(g.deserialize(st[k]).value, sel) != q
    ensures FindSpec(g, Scan(st), sel, q) == Failure(AssetNotFound(q))
  {
    var kvs := Scan(st);
    FindSpecOutcome(g, kvs, sel, q);
    forall j | 0 <= j < |kvs|
      ensures PassedOver(g, kvs[j], sel, q)
    {
      assert kvs[j].key in st && st[kvs[j].key] == kvs[j].value;
    }
  }

  /**
    On a well-formed ledger a successful read by attribute returns the asset stored under the
    smallest key whose asset matches the query.
   */
  lemma ReadFindsSmallestMatch(g: Genson, st: State, sel: Selector, q: string)
    requires WellFormed(g, st)
    ensures var r := FindSpec(g, Scan(st), sel, q);
      r.Success? ==>
        && r.value.id in st && g.deserialize(st[r.value.id]) == Some(r.value) && Attribute(r.value, sel) == q
        && forall k :: k in st && Less(k, r.value.id) ==> Attribute(g.deserialize(st[k]).value, sel) != q
  {
    var kvs := Scan(st);
    var r := FindSpec(g, kvs, sel, q);
    if r.Success? {
      var i := FindSpecFound(g, kvs, sel, q);
      assert kvs[i].key in st && st[kvs[i].key] == kvs[i].value;
      PassedOverKeys(g, st, i, sel, q);
    }
  }

  /** Where a successful search stopped: every entry before it passed over, the entry itself a hit. */
  lemma FindSpecFound(g: Genson, kvs: seq<KV>, sel: Selector, q: string) returns (i: nat)
    requires FindSpec(g, kvs, sel, q).Success?
    ensures i < |kvs| && PassedOverBefore(g, kvs, i, sel, q)
    ensures g.deserialize(kvs[i].value) == Some(FindSpec(g, kvs, sel, q).value)
    ensures Attribute(FindSpec(g, kvs, sel, q).value, sel) == q
  {
    FindSpecOutcome(g, kvs, sel, q);
    i :| 0 <= i < |kvs| && PassedOverBefore(g, kvs, i, sel, q) && Hit(g, kvs[i], sel, q)
         && g.deserialize(kvs[i].value) == Some(FindSpec(g, kvs, sel, q).value);
  }

  /** The entries a scan passed over before position `i` are the stored keys below the key there. */
  lemma PassedOverKeys(g: Genson, st: State, i: nat, sel: Selector, q: string)
    requires i < |Scan(st)| && PassedOverBefore(g, Scan(st), i, sel, q)
    ensures forall k :: k in st && Less(k, Scan(st)[i].key) ==>
      g.deserialize(st[k]).Some? && Attribute(g.deserialize(st[k]).value, sel) != q
  {
    var kvs := Scan(st);
    forall k | k in st && Less(k, kvs[i].key)
      ensures g.deserialize(st[k]).Some? && Attribute(g.deserialize(st[k]).value, sel) != q
    {
      var j := ScanBefore(st, i, k);
      assert PassedOver(g, kvs[j], sel, q);
    }
  }

  // ---------------------------------------------------------------- listing

  /** What the listing yields over the entries of a scan: every asset in order, or the first entry that does not decode. */
  ghost function DecodeSpec(g: Genson, kvs: seq<KV>): Result<seq<IoTAsset>, Error>
    decreases |kvs|
  {
    if kvs == [] then Success([])
    else
      match g.deserialize(kvs[0].value)
      case None => Failure(Undecodable(kvs[0].key))
      case Some(a) =>
        match DecodeSpec(g, kvs[1..])
        case Failure(e) => Failure(e)
        case Success(rest) => Success([a] + rest)
  }

  function Prepend(prefix: seq<IoTAsset>, r: Result<seq<IoTAsset>, Error>): Result<seq<IoTAsset>, Error> {
    match r
    case Failure(e) => Failure(e)
    case Success(rest) => Success(prefix + rest)
  }

  /** The listing succeeds exactly when every entry decodes, and then lists the decoded assets in scan order. */
  lemma {:induction false} DecodeSpecOutcome(g: Genson, kvs: seq<KV>)
    ensures var r := DecodeSpec(g, kvs);
      && (r.Success? <==> forall j :: 0 <= j < |kvs| ==> g.deserialize(kvs[j].value).Some?)
      && (r.Success? ==> |r.value| == |kvs| && forall j :: 0 <= j < |kvs| ==> g.deserialize(kvs[j].value) == Some(r.value[j]))
      && (r.Failure? ==> exists i :: 0 <= i < |kvs| && g.deserialize(kvs[i].value).None? && r == Failure(Undecodable(kvs[i].key)))
    decreases |kvs|
  {
    if kvs != [] {
      var rest := kvs[1..];
      DecodeSpecOutcome(g, rest);
      var r := DecodeSpec(g, kvs);
      if g.deserialize(kvs[0].value).Some? {
        if DecodeSpec(g, rest).Success? {
          forall j | 0 <= j < |kvs|
            ensures g.deserialize(kvs[j].value) == Some(r.value[j])
          {
            if j > 0 {
              assert kvs[j] == rest[j - 1];
            }
          }
        } else {
          var i :| 0 <= i < |rest| && g.deserialize(rest[i].value).None? && DecodeSpec(g, rest) == Failure(Undecodable(rest[i].key));
          assert kvs[i + 1] == rest[i];
        }
      }
    }
  }

  /** The decoding loop of the listing. */
  method DecodeAll(genson: Genson, results: seq<KV>) returns (r: Result<seq<IoTAsset>, Error>)
    ensures r == DecodeSpec(genson, results)
  {
    var queryResults: seq<IoTAsset> := [];
    var i := 0;
    assert results[i..] == results;
    PrependNothing(DecodeSpec(genson, results));
    while i < |results|
      invariant 0 <= i <= |results|
      invariant DecodeSpec(genson, results) == Prepend(queryResults, DecodeSpec(genson, results[i..]))
    {
      assert results[i..][1..] == results[i + 1..];
      var asset := genson.deserialize(results[i].value);
      if asset.None? {
        return Failure(Undecodable(results[i].key));
      }
      PrependStep(queryResults, asset.value, DecodeSpec(genson, results[i + 1..]));
      queryResults := queryResults + [asset.value];
      i := i + 1;
    }
    PrependNothing(DecodeSpec(genson, results[i..]));
    assert queryResults + [] == queryResults;
    return Success(queryResults);
  }

  lemma PrependNothing(r: Result<seq<IoTAsset>, Error>)
    ensures Prepend([], r) == r
  {
    if r.Success? {
      assert [] + r.value == r.value;
    }
  }

  /** Prepending `prefix` after `a` is prepending `prefix + [a]`. */
  lemma PrependStep(prefix: seq<IoTAsset>, a: IoTAsset, r: Result<seq<IoTAsset>, Error>)
    ensures Prepend(prefix, Prepend([a], r)) == Prepend(prefix + [a], r)
  {
    if r.Success? {
      assert prefix + ([a] + r.value) == (prefix + [a]) + r.value;
    }
  }

  /** Lists every stored asset, in ascending key order. */
  method GetAllIoTAssets(genson: Genson, ledger: WorldState) returns (r: Result<seq<IoTAsset>, Error>)
    ensures r == DecodeSpec(genson, Scan(ledger.state))
  {
    var results := ledger.GetStateByRange();
    r := DecodeAll(genson, results);
  }

  /**
    On a well-formed ledger the listing succeeds with exactly one asset per stored key,
    sorted by id, each the asset stored under its id.
   */
  lemma ListOnWellFormed(g: Genson, st: State)
    requires WellFormed(g, st)
    ensures var r := DecodeSpec(g, Scan(st));
      && r.Success? && |r.value| == |st|
      && (forall i, j :: 0 <= i < j < |r.value| ==> Less(r.value[i].id, r.value[j].id))
      && (forall i :: 0 <= i < |r.value| ==> r.value[i].id in st && g.deserialize(st[r.value[i].id]) == Some(r.value[i]))
      && (forall k :: k in st ==> exists i :: 0 <= i < |r.value| && r.value[i].id == k)
  {
    var kvs := Scan(st);
    ListFollowsScan(g, st);
    var r := DecodeSpec(g, kvs);
    forall k | k in st
      ensures exists i :: 0 <= i < |r.value| && r.value[i].id == k
    {
      var j :| 0 <= j < |kvs| && kvs[j].key == k;
      assert r.value[j].id == k;
    }
  }

  /** On a well-formed ledger the listing decodes every scanned entry, and the i-th asset has the i-th key as id. */
  lemma ListFollowsScan(g: Genson, st: State)
    requires WellFormed(g, st)
    ensures var r := DecodeSpec(g, Scan(st));
      && r.Success? && |r.value| == |Scan(st)|
      && (forall i :: 0 <= i < |r.value| ==>
            r.value[i].id == Scan(st)[i].key && g.deserialize(Scan(st)[i].value) == Some(r.value[i]))
  {
    WellFormedScan(g, st);
    DecodeSpecOutcome(g, Scan(st));
  }
}
