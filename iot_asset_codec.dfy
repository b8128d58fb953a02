/**
  How the Java contract stores an asset. The contract holds a serializer object and uses only
  two of its operations, writing an asset as text and reading text back as an asset; `Genson`
  is that pair. `JsonGenson` is the serializer's actual format: a flat JSON object with the
  properties in alphabetical order of their names, read back by a JSON parser that requires
  all five properties and ignores any others. `JsonGensonReadsBack` proves that it reads back
  what it writes, which is all the contract's proofs assume of the serializer.
 */
module IoTAssetCodec {
  import opened Wrappers
  import opened JsonText
  import opened Canonical
  import opened IoTAssetRecord

  /** The JSON text the serializer writes for an asset: its properties in alphabetical order. */
  function Serialize(a: IoTAsset): (r: string)
    ensures |r| > 0
    ensures Parse(r) == Some(SortedFields(a))
  {
    ParseStringify(SortedFields(a));
    Stringify(SortedFields(a))
  }

  /** The asset a parsed object describes: all five properties must be there; others are ignored. */
  function FromFields(fs: seq<Field>): Option<IoTAsset> {
    match (Lookup(fs, "id"), Lookup(fs, "idCloudProvider"), Lookup(fs, "empreinteRadio"),
           Lookup(fs, "adresseMac"), Lookup(fs, "idFabricant"))
    case (Some(id), Some(cp), Some(er), Some(mac), Some(fab)) => Some(IoTAsset(id, cp, er, mac, fab))
    case _ => None
  }

  /**
    Reading an asset back: it succeeds exactly on a flat JSON object having all five
    properties, and each field of the asset is the property of the same name.
   */
  function Deserialize(s: string): (r: Option<IoTAsset>)
    ensures r.Some? <==>
      && Parse(s).Some?
      && Lookup(Parse(s).value, "id").Some?
      && Lookup(Parse(s).value, "idCloudProvider").Some?
      && Lookup(Parse(s).value, "empreinteRadio").Some?
      && Lookup(Parse(s).value, "adresseMac").Some?
      && Lookup(Parse(s).value, "idFabricant").Some?
    ensures r.Some? ==>
      && Lookup(Parse(s).value, "id") == Some(r.value.id)
      && Lookup(Parse(s).value, "idCloudProvider") == Some(r.value.idCloudProvider)
      && Lookup(Parse(s).value, "empreinteRadio") == Some(r.value.empreinteRadio)
      && Lookup(Parse(s).value, "adresseMac") == Some(r.value.adresseMac)
      && Lookup(Parse(s).value, "idFabricant") == Some(r.value.idFabricant)
  {
    match Parse(s)
    case None => None
    case Some(fs) => FromFields(fs)
  }

  lemma FromFieldsOf(fs: seq<Field>, a: IoTAsset)
    requires Lookup(fs, "id") == Some(a.id)
    requires Lookup(fs, "idCloudProvider") == Some(a.idCloudProvider)
    requires Lookup(fs, "empreinteRadio") == Some(a.empreinteRadio)
    requires Lookup(fs, "adresseMac") == Some(a.adresseMac)
    requires Lookup(fs, "idFabricant") == Some(a.idFabricant)
    ensures FromFields(fs) == Some(a)
  {
  }

  lemma FromSortedFields(a: IoTAsset)
    ensures FromFields(SortedFields(a)) == Some(a)
  {
    var fs := SortedFields(a);
    assert DistinctNames(fs);
    LookupDistinct(fs, 0);
    LookupDistinct(fs, 1);
    LookupDistinct(fs, 2);
    LookupDistinct(fs, 3);
    LookupDistinct(fs, 4);
    FromFieldsOf(fs, a);
  }

  /** Round trip of the stored form: what `Serialize` writes, `Deserialize` reads back unchanged. */
  lemma DeserializeSerialize(a: IoTAsset)
    ensures Deserialize(Serialize(a)) == Some(a)
  {
    FromSortedFields(a);
  }

  /** The serializer as the contract uses it: text out, and text back in (`None` when the text is not an asset). */
  datatype Genson = Genson(serialize: IoTAsset -> string, deserialize: string -> Option<IoTAsset>)

  /** What the contract relies on: serialized text is never empty and reads back as the same asset. */
  ghost predicate ReadsBack(g: Genson) {
    forall a :: |g.serialize(a)| > 0 && g.deserialize(g.serialize(a)) == Some(a)
  }

  const JsonGenson: Genson := Genson(Serialize, Deserialize)

  lemma JsonGensonReadsBack()
    ensures ReadsBack(JsonGenson)
  {
    forall a
      ensures |JsonGenson.serialize(a)| > 0 && JsonGenson.deserialize(JsonGenson.serialize(a)) == Some(a)
    {
      DeserializeSerialize(a);
    }
  }
}
