/**
  Records as the two JavaScript chaincodes write and list them.

  Both write a record as `stringify(sortKeysRecursive(record))`: its members sorted by name,
  then written compactly. Both list the ledger the same way: a range scan over all keys, each
  value parsed as JSON, and a value that does not parse kept as its raw text.
 */
module JsRecords {
  import opened Wrappers
  import opened Ledger
  import opened JsonText
  import opened Canonical

  /** One element of a listing: a parsed record, or the raw text of a value that is not one. */
  datatype Entry = Record(fields: seq<Field>) | Raw(text: string)

  /** The `try { JSON.parse } catch { raw }` step of a listing. */
  function DecodeEntry(text: string): (e: Entry)
    ensures e.Record? <==> Parse(text).Some?
    ensures e.Record? ==> Parse(text) == Some(e.fields)
    ensures e.Raw? ==> e.text == text
  {
    match Parse(text)
    case Some(fs) => Record(fs)
    case None => Raw(text)
  }

  /** The text stored for a record: members sorted by name, written compactly. */
  function StoredText(fs: seq<Field>): (t: string)
    ensures |t| > 0
  {
    Stringify(Canonicalize(fs))
  }

  /** A stored record lists as a parsed record, not as raw text: its members sorted by name. */
  lemma StoredTextReadsBack(fs: seq<Field>)
    ensures DecodeEntry(StoredText(fs)) == Record(Canonicalize(fs))
  {
    ParseStringify(Canonicalize(fs));
  }

  /** Every member of a stored record keeps its value: only the order of the members changes. */
  lemma StoredTextLookup(fs: seq<Field>, name: string)
    requires DistinctNames(fs)
    ensures DecodeEntry(StoredText(fs)).Record?
    ensures Lookup(DecodeEntry(StoredText(fs)).fields, name) == Lookup(fs, name)
  {
    StoredTextReadsBack(fs);
    LookupCanonical(fs, name);
  }

  /** The listing of the entries of a scan, one element per entry, in scan order. */
  function Listing(kvs: seq<KV>): (es: seq<Entry>)
    ensures |es| == |kvs|
    ensures forall i :: 0 <= i < |kvs| ==> es[i] == DecodeEntry(kvs[i].value)
  {
    seq(|kvs|, i requires 0 <= i < |kvs| => DecodeEntry(kvs[i].value))
  }

  /** The listing loop shared by both `GetAllAssets`. */
  method CollectRecords(results: seq<KV>) returns (allResults: seq<Entry>)
    ensures allResults == Listing(results)
  {
    allResults := [];
    var i := 0;
    while i < |results|
      invariant 0 <= i <= |results|
      invariant allResults == Listing(results[..i])
    {
      var strValue := results[i].value;
      var record := DecodeEntry(strValue);
      allResults := allResults + [record];
      i := i + 1;
    }
    assert results[..i] == results;
  }

  /** The listing of a whole ledger: one element per stored key, in ascending key order. */
  lemma ListingOfState(st: State)
    ensures var es := Listing(Scan(st));
      && |es| == |st|
      && (forall k :: k in st ==> exists i :: 0 <= i < |es| && Scan(st)[i].key == k && es[i] == DecodeEntry(st[k]))
  {
  }

  /** An element of a listing is raw exactly when the text stored under its key is not a flat JSON object. */
  lemma ListingRawIffUnparsed(st: State)
    ensures var es := Listing(Scan(st));
      forall i :: 0 <= i < |es| ==> (es[i].Raw? <==> Parse(st[Scan(st)[i].key]).None?)
  {
  }
}
