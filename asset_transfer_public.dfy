/**
  The public hash registry contract. An input (a radio fingerprint or a MAC address) is never
  stored itself: only its SHA-256 digest, as lowercase hex, under the digest as key, inside a
  one-member record `{"hash": digest}`. The registry is content-addressed: every key holds the
  record naming that very key.

  SHA-256 is a library call; it is a parameter `sha256` here, of which the model assumes only
  that it is a function (the same input gives the same digest) returning 64 lowercase hex digits.
 */
module AssetTransferPublic {
  import opened Wrappers
  import opened Ledger
  import opened JsonText
  import opened Canonical
  import opened JsRecords

  predicate IsLowerHex(c: char) {
    '0' <= c <= '9' || 'a' <= c <= 'f'
  }

  /** The output of `digest('hex')` for SHA-256: 64 lowercase hex digits. */
  type Digest = s: string | |s| == 64 && forall i :: 0 <= i < |s| ==> IsLowerHex(s[i])
    witness seq(64, i => '0')

  datatype Error = HashAlreadyExists(hash: Digest)

  /** The object `{ hash }`. */
  function HashRecord(h: string): seq<Field> {
    [Field("hash", h)]
  }

  /**
    A one-member record is already in canonical form: what is stored for it is the same text
    `JSON.stringify` gives, and it lists back as that record.
   */
  lemma HashRecordReadsBack(h: string)
    ensures StoredText(HashRecord(h)) == Stringify(HashRecord(h))
    ensures DecodeEntry(StoredText(HashRecord(h))) == Record(HashRecord(h))
  {
    assert Canonicalize(HashRecord(h)) == HashRecord(h);
    StoredTextReadsBack(HashRecord(h));
  }

  /** The registry invariant: every key holds a value that lists as the record naming that key. */
  ghost predicate HashKeyed(st: State) {
    forall k :: k in st ==> DecodeEntry(st[k]) == Record(HashRecord(k))
  }

  /** A write that keeps the registry invariant: the record of a hash under that hash. */
  function HashWrite(h: string): (w: KV)
    ensures w.key == h && DecodeEntry(w.value) == Record(HashRecord(h))
  {
    HashRecordReadsBack(h);
    KV(h, StoredText(HashRecord(h)))
  }

  /** Writing one record under its own hash keeps the invariant and only adds that key. */
  lemma PutHashKeepsKeyed(st: State, h: string)
    requires HashKeyed(st)
    ensures var st' := st[h := HashWrite(h).value];
      HashKeyed(st') && st'.Keys == st.Keys + {h} && Present(st', h)
  {
  }

  // ---------------------------------------------------------------- InitLedger

  /** The four default inputs: two radio fingerprints and two MAC addresses. */
  const Preimages: seq<string> := ["empreinte1", "00:0a:95:9d:68:16", "empreinte2", "00:0a:95:9d:68:17"]

  /** The writes of the seeding loop: for each input, its record under its digest. */
  function HashWrites(sha256: string -> Digest, inputs: seq<string>): (w: seq<KV>)
    ensures |w| == |inputs|
    ensures forall i :: 0 <= i < |w| ==> w[i] == HashWrite(sha256(inputs[i]))
  {
    seq(|inputs|, i requires 0 <= i < |inputs| => HashWrite(sha256(inputs[i])))
  }

  function Digests(sha256: string -> Digest, inputs: seq<string>): set<string> {
    set i | 0 <= i < |inputs| :: sha256(inputs[i])
  }

  /** The seeding writes go to the digests of the inputs. */
  lemma HashWritesKeys(sha256: string -> Digest, inputs: seq<string>)
    ensures WriteKeys(HashWrites(sha256, inputs)) == Digests(sha256, inputs)
  {
    var w := HashWrites(sha256, inputs);
    forall i | 0 <= i < |w|
      ensures w[i].key == sha256(inputs[i])
    {
    }
  }

  /**
    Seeding adds exactly the digests of the inputs as keys (fewer keys than inputs only if two
    digests collide), each then registered, and leaves every other key as it was; a registry
    that keeps the invariant keeps it.
   */
  lemma SeedingEffect(sha256: string -> Digest, st: State, inputs: seq<string>)
    ensures var st' := PutAll(st, HashWrites(sha256, inputs));
      && st'.Keys == st.Keys + Digests(sha256, inputs)
      && (forall k :: k in st && k !in Digests(sha256, inputs) ==> st'[k] == st[k])
      && (forall k :: k in Digests(sha256, inputs) ==> Present(st', k) && DecodeEntry(st'[k]) == Record(HashRecord(k)))
      && (HashKeyed(st) ==> HashKeyed(st'))
  {
    var w := HashWrites(sha256, inputs);
    var st' := PutAll(st, w);
    HashWritesKeys(sha256, inputs);
    PutAllKeys(st, w);
    forall k | k in WriteKeys(w)
      ensures Present(st', k) && DecodeEntry(st'[k]) == Record(HashRecord(k))
    {
      var i :| 0 <= i < |w| && w[i].key == k && st'[k] == w[i].value;
    }
  }

  /**
    Writes, for each of the four default inputs, its record under its digest, with the effect
    `SeedingEffect` states: their digests registered and nothing else changed.
   */
  method InitLedger(sha256: string -> Digest, ledger: WorldState)
    modifies ledger
    ensures ledger.state == PutAll(old(ledger.state), HashWrites(sha256, Preimages))
    ensures HashKeyed(old(ledger.state)) ==> HashKeyed(ledger.state)
  {
    var inputs := Preimages;
    var writes := HashWrites(sha256, inputs);
    PutEach(ledger, writes);
    SeedingEffect(sha256, old(ledger.state), inputs);
  }

  // ---------------------------------------------------------------- queries and registration

  method AssetHashExists(ledger: WorldState, hash: string) returns (b: bool)
    ensures b <==> Present(ledger.state, hash)
  {
    var assetJSON := ledger.GetState(hash);
    b := |assetJSON| > 0;
  }

  /**
    Registers the digest of `asset` unless it is already registered. On failure nothing is
    written; on success exactly the digest's key changes, to its record, and the result is the
    record's JSON text.
   */
  method StoreAssetHash(sha256: string -> Digest, ledger: WorldState, asset: string)
    returns (r: Result<string, Error>)
    modifies ledger
    ensures Present(old(ledger.state), sha256(asset)) ==>
      r == Failure(HashAlreadyExists(sha256(asset))) && ledger.state == old(ledger.state)
    ensures !Present(old(ledger.state), sha256(asset)) ==>
      && r == Success(Stringify(HashRecord(sha256(asset))))
      && ledger.state == old(ledger.state)[sha256(asset) := StoredText(HashRecord(sha256(asset)))]
  {
    var hash := sha256(asset);
    var exists_ := AssetHashExists(ledger, hash);
    if exists_ {
      return Failure(HashAlreadyExists(hash));
    }
    var assetHash := HashRecord(hash);
    ledger.PutState(hash, StoredText(assetHash));
    return Success(Stringify(assetHash));
  }

  /** The two reports of a verification, in the contract's own wording; each names the digest. */
  function Report(h: string, found: bool): (r: string)
    ensures |r| > 15 + |h|
    ensures r[..15] == "Correspondance " && r[15..15 + |h|] == h
    ensures r[|r| - 1] == '.'
  {
    if found then "Correspondance " + h + " trouv\U{e9}e dans la blockchain."
    else "Correspondance " + h + " non trouv\U{e9}e."
  }

  /** A report names its digest and tells a match from no match. */
  lemma ReportsDiffer(h: Digest, found: bool, h': Digest, found': bool)
    requires Report(h, found) == Report(h', found')
    ensures h == h' && found == found'
  {
    var r, r' := Report(h, found), Report(h', found');
    assert h == r[15..79] && h' == r'[15..79];
    assert r[80] == (if found then 't' else 'n');
    assert r'[80] == (if found' then 't' else 'n');
  }

  /** Reports whether the digest of `asset` is registered; reads the ledger and writes nothing. */
  method VerifyAssetHash(sha256: string -> Digest, ledger: WorldState, asset: string) returns (msg: string)
    ensures msg == Report(sha256(asset), Present(ledger.state, sha256(asset)))
  {
    var hash := sha256(asset);
    var exists_ := AssetHashExists(ledger, hash);
    msg := Report(hash, exists_);
  }

  /** Registration keeps the registry invariant, whether it succeeds or fails. */
  lemma StoreKeepsKeyed(sha256: string -> Digest, st: State, asset: string)
    requires HashKeyed(st)
    ensures !Present(st, sha256(asset)) ==>
      HashKeyed(st[sha256(asset) := StoredText(HashRecord(sha256(asset)))])
  {
    PutHashKeepsKeyed(st, sha256(asset));
  }

  /**
    Register-once: a second registration of the same input fails and writes nothing, so the
    ledger ends as the first call left it, and the input then verifies as a match.
   */
  method StoreTwiceThenVerify(sha256: string -> Digest, ledger: WorldState, asset: string)
    returns (r1: Result<string, Error>, r2: Result<string, Error>, msg: string)
    modifies ledger
    ensures r1.Success? <==> !Present(old(ledger.state), sha256(asset))
    ensures r1.Success? ==> ledger.state == old(ledger.state)[sha256(asset) := StoredText(HashRecord(sha256(asset)))]
    ensures r1.Failure? ==> ledger.state == old(ledger.state)
    ensures r2 == Failure(HashAlreadyExists(sha256(asset)))
    ensures msg == Report(sha256(asset), true)
    ensures HashKeyed(old(ledger.state)) ==> HashKeyed(ledger.state)
  {
    r1 := StoreAssetHash(sha256, ledger, asset);
    if r1.Success? && HashKeyed(old(ledger.state)) {
      PutHashKeepsKeyed(old(ledger.state), sha256(asset));
    }
    ghost var between := ledger.state;
    r2 := StoreAssetHash(sha256, ledger, asset);
    assert ledger.state == between;
    msg := VerifyAssetHash(sha256, ledger, asset);
  }

  // ---------------------------------------------------------------- listing

  /** Lists every stored value in ascending key order, parsed when it is JSON and raw otherwise. */
  method GetAllAssets(ledger: WorldState) returns (allResults: seq<Entry>)
    ensures allResults == Listing(Scan(ledger.state))
  {
    var results := ledger.GetStateByRange();
    allResults := CollectRecords(results);
  }

  /** The listing of a registry that keeps the invariant: one hash record per key, naming that key, in key order. */
  lemma ListingOfRegistry(st: State)
    requires HashKeyed(st)
    ensures var es := Listing(Scan(st));
      |es| == |st| && forall i :: 0 <= i < |es| ==> es[i] == Record(HashRecord(Scan(st)[i].key))
  {
  }
}
