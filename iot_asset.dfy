/**
  The IoT asset record: an immutable value with five string properties (serial number, cloud
  provider, radio fingerprint, MAC address, manufacturer). Being a datatype, its getters are
  its destructors and no field can be reassigned after construction. The module also gives
  the record's Java `equals`, `hashCode` and `toString`, and its five JSON properties.
 */
module IoTAssetRecord {
  import opened Wrappers
  import opened KeyOrder
  import opened JsonText
  import opened Canonical

  datatype IoTAsset = IoTAsset(
    id: string,
    idCloudProvider: string,
    empreinteRadio: string,
    adresseMac: string,
    idFabricant: string)

  /** The record's JSON properties, in declaration order. */
  function AssetFields(a: IoTAsset): (fs: seq<Field>)
    ensures DistinctNames(fs)
  {
    [Field("id", a.id), Field("idCloudProvider", a.idCloudProvider),
     Field("empreinteRadio", a.empreinteRadio), Field("adresseMac", a.adresseMac),
     Field("idFabricant", a.idFabricant)]
  }

  /** The record has exactly its five properties. */
  lemma AssetFieldNames(a: IoTAsset)
    ensures NameSet(AssetFields(a)) == {"id", "idCloudProvider", "empreinteRadio", "adresseMac", "idFabricant"}
  {
    var fs := AssetFields(a);
    assert fs[0] in fs && fs[1] in fs && fs[2] in fs && fs[3] in fs && fs[4] in fs;
  }

  /** The record's properties sorted by name, the order both chaincodes store them in. */
  function SortedFields(a: IoTAsset): seq<Field> {
    [Field("adresseMac", a.adresseMac), Field("empreinteRadio", a.empreinteRadio), Field("id", a.id),
     Field("idCloudProvider", a.idCloudProvider), Field("idFabricant", a.idFabricant)]
  }

  lemma SortedFieldsStrictlySorted(a: IoTAsset)
    ensures StrictlySortedByName(SortedFields(a))
  {
    var g := SortedFields(a);
    assert Less(g[0].name, g[1].name) && Less(g[1].name, g[2].name);
    assert Less(g[2].name, g[3].name) && Less(g[3].name, g[4].name);
    StrictlySortedFromConsecutive(g);
  }

  lemma SortedFieldsPermuteDeclared(a: IoTAsset)
    ensures multiset(SortedFields(a)) == multiset(AssetFields(a))
  {
    var g, d := SortedFields(a), AssetFields(a);
    assert g == [d[3], d[2], d[0], d[1], d[4]];
    assert d == [d[0], d[1], d[2], d[3], d[4]];
  }

  /** Sorting the declared properties by name gives exactly `SortedFields`. */
  lemma SortedFieldsAreCanonical(a: IoTAsset)
    ensures SortedFields(a) == Canonicalize(AssetFields(a))
  {
    SortedFieldsStrictlySorted(a);
    SortedFieldsPermuteDeclared(a);
    SortedUnique(SortedFields(a), Canonicalize(AssetFields(a)));
  }

  // ---------------------------------------------------------------- equals

  /** What `equals` may be handed: nothing (`null` is `None`), an asset, or an object of another class. */
  datatype JavaObject = IoTAssetObject(asset: IoTAsset) | OtherObject(className: string)

  /**
    Java `equals`: false for null and for an object of another class, otherwise the pairwise
    equality of the five fields. An object is equal to `self` exactly when it is an asset with
    the same value.
   */
  function Equals(self: IoTAsset, obj: Option<JavaObject>): (r: bool)
    ensures r <==> obj == Some(IoTAssetObject(self))
  {
    match obj
    case None => false
    case Some(OtherObject(_)) => false
    case Some(IoTAssetObject(other)) =>
      self.id == other.id
      && self.idCloudProvider == other.idCloudProvider
      && self.empreinteRadio == other.empreinteRadio
      && self.adresseMac == other.adresseMac
      && self.idFabricant == other.idFabricant
  }

  /** `equals` is an equivalence relation on assets. */
  lemma EqualsIsEquivalence(a: IoTAsset, b: IoTAsset, c: IoTAsset)
    ensures Equals(a, Some(IoTAssetObject(a)))
    ensures Equals(a, Some(IoTAssetObject(b))) <==> Equals(b, Some(IoTAssetObject(a)))
    ensures Equals(a, Some(IoTAssetObject(b))) && Equals(b, Some(IoTAssetObject(c))) ==> Equals(a, Some(IoTAssetObject(c)))
  {
  }

  // ---------------------------------------------------------------- hashCode

  const TwoTo31: int := 0x8000_0000
  const TwoTo32: int := 0x1_0000_0000

  predicate IsInt32(x: int) {
    -TwoTo31 <= x < TwoTo31
  }

  /** Java's two's-complement `int` wrap-around of an exact integer. */
  function Int32(x: int): (r: int)
    ensures IsInt32(r)
    ensures (x - r) % TwoTo32 == 0
  {
    (x + TwoTo31) % TwoTo32 - TwoTo31
  }

  /** The UTF-16 code units of a character, as Java strings hold it. */
  function CodeUnits(c: char): (us: seq<int>)
    ensures 1 <= |us| <= 2
    ensures forall i :: 0 <= i < |us| ==> 0 <= us[i] < 0x1_0000
  {
    if c as int < 0x1_0000 then [c as int]
    else [0xD800 + (c as int - 0x1_0000) / 0x400, 0xDC00 + (c as int - 0x1_0000) % 0x400]
  }

  function Utf16(s: string): (us: seq<int>)
    ensures |s| <= |us| <= 2 * |s|
    ensures forall i :: 0 <= i < |us| ==> 0 <= us[i] < 0x1_0000
    decreases |s|
  {
    if s == [] then [] else CodeUnits(s[0]) + Utf16(s[1..])
  }

  /** Adding a multiple of 2^32 does not change the wrapped value. */
  lemma Int32Wrap(x: int, q: int)
    ensures Int32(x + q * TwoTo32) == Int32(x)
  {
    var a := x + TwoTo31;
    assert (a + q * TwoTo32) % TwoTo32 == a % TwoTo32 by {
      var m := a % TwoTo32;
      assert a == (a / TwoTo32) * TwoTo32 + m;
      assert a + q * TwoTo32 == (a / TwoTo32 + q) * TwoTo32 + m;
    }
  }

  /** Wrapping an intermediate result, as each Java `int` step does, changes nothing modulo 2^32. */
  lemma Int32Step(y: int, m: int, z: int)
    ensures Int32(Int32(y) * m + z) == Int32(y * m + z)
  {
    var k := (y - Int32(y)) / TwoTo32;
    assert Int32(y) == y - k * TwoTo32;
    assert Int32(y) * m + z == y * m + z + (-(k * m)) * TwoTo32;
    Int32Wrap(y * m + z, -(k * m));
  }

  function Pow31(k: nat): int {
    if k == 0 then 1 else 31 * Pow31(k - 1)
  }

  /** The polynomial a Java hash evaluates: the sum of `us[i] * 31^(n-1-i)`, without wrap-around. */
  function WeightedSum(us: seq<int>): int
    decreases |us|
  {
    if us == [] then 0 else us[0] * Pow31(|us| - 1) + WeightedSum(us[1..])
  }

  /**
    `h = 31 * h + u` over the code units, wrapping at every step as Java `int` arithmetic does:
    the result is the exact polynomial, wrapped once.
   */
  function PolyHash(us: seq<int>, h: int): (r: int)
    requires IsInt32(h)
    ensures IsInt32(r)
    ensures r == Int32(h * Pow31(|us|) + WeightedSum(us))
    decreases |us|
  {
    if us == [] then
      assert Int32(h) == h;
      h
    else
      var n := |us|;
      Int32Step(31 * h + us[0], Pow31(n - 1), WeightedSum(us[1..]));
      assert (31 * h + us[0]) * Pow31(n - 1) == h * Pow31(n) + us[0] * Pow31(n - 1);
      PolyHash(us[1..], Int32(31 * h + us[0]))
  }

  /** `String.hashCode`: the polynomial in 31 of the UTF-16 code units, wrapped to 32 bits. */
  function StringHashCode(s: string): (r: int)
    ensures IsInt32(r)
    ensures r == Int32(WeightedSum(Utf16(s)))
  {
    PolyHash(Utf16(s), 0)
  }

  /**
    `Objects.hash` over the five fields: start at 1, then `31 * result + field.hashCode()` for
    each. The result is `31^5 + h1 * 31^4 + h2 * 31^3 + h3 * 31^2 + h4 * 31 + h5`, wrapped to 32 bits.
   */
  function HashCode(a: IoTAsset): (r: int)
    ensures IsInt32(r)
    ensures r == Int32(28629151 + 923521 * StringHashCode(a.id) + 29791 * StringHashCode(a.idCloudProvider)
                       + 961 * StringHashCode(a.empreinteRadio) + 31 * StringHashCode(a.adresseMac)
                       + StringHashCode(a.idFabricant))
  {
    var hs := [StringHashCode(a.id), StringHashCode(a.idCloudProvider), StringHashCode(a.empreinteRadio),
               StringHashCode(a.adresseMac), StringHashCode(a.idFabricant)];
    FiveTermSum(hs);
    PolyHash(hs, 1)
  }

  lemma FiveTermSum(hs: seq<int>)
    requires |hs| == 5
    ensures 1 * Pow31(5) + WeightedSum(hs) == 28629151 + 923521 * hs[0] + 29791 * hs[1] + 961 * hs[2] + 31 * hs[3] + hs[4]
  {
    assert Pow31(1) == 31 && Pow31(2) == 961 && Pow31(3) == 29791 && Pow31(4) == 923521 && Pow31(5) == 28629151;
    var t1, t2, t3, t4 := hs[1..], hs[2..], hs[3..], hs[4..];
    assert t1[1..] == t2 && t2[1..] == t3 && t3[1..] == t4 && t4[1..] == [];
    assert WeightedSum(t4) == hs[4];
    assert WeightedSum(t3) == 31 * hs[3] + hs[4];
    assert WeightedSum(t2) == 961 * hs[2] + 31 * hs[3] + hs[4];
    assert WeightedSum(t1) == 29791 * hs[1] + 961 * hs[2] + 31 * hs[3] + hs[4];
  }

  /** The `equals`/`hashCode` contract: equal assets have equal hash codes. */
  lemma EqualsImpliesEqualHashCode(a: IoTAsset, b: IoTAsset)
    requires Equals(a, Some(IoTAssetObject(b)))
    ensures HashCode(a) == HashCode(b)
  {
  }

  // ---------------------------------------------------------------- toString

  /**
    `toString`: the class name, then the five fields each after its label and between single
    quotes, in declaration order. The labels and quotes take 85 characters.
   */
  function ToString(a: IoTAsset): (r: string)
    ensures |r| == 85 + |a.id| + |a.idCloudProvider| + |a.empreinteRadio| + |a.adresseMac| + |a.idFabricant|
    ensures r[..13] == "IoTAsset{id='" && r[13..13 + |a.id|] == a.id
    ensures r[|r| - 2..] == "'}"
  {
    "IoTAsset{id='" + a.id
    + "', idCloudProvider='" + a.idCloudProvider
    + "', empreinteRadio='" + a.empreinteRadio
    + "', adresseMac='" + a.adresseMac
    + "', idFabricant='" + a.idFabricant + "'}"
  }

  predicate QuoteFree(s: string) {
    '\'' !in s
  }

  /** A quote-free text followed by a quote is determined by where the first quote stands. */
  lemma {:induction false} SplitAtQuote(x: string, y: string, r1: string, r2: string)
    requires QuoteFree(x) && QuoteFree(y)
    requires |r1| > 0 && r1[0] == '\'' && |r2| > 0 && r2[0] == '\''
    requires x + r1 == y + r2
    ensures x == y && r1 == r2
    decreases |x|
  {
    if x == [] {
      assert x + r1 == r1;
      if y != [] {
        assert false;
      }
      assert y + r2 == r2;
    } else if y == [] {
      SplitAtQuote(y, x, r2, r1);
    } else {
      assert (x + r1)[0] == (y + r2)[0];
      assert (x + r1)[1..] == x[1..] + r1 && (y + r2)[1..] == y[1..] + r2;
      assert QuoteFree(x[1..]) by { forall c | c in x[1..] ensures c in x { } }
      assert QuoteFree(y[1..]) by { forall c | c in y[1..] ensures c in y { } }
      SplitAtQuote(x[1..], y[1..], r1, r2);
      assert x == [x[0]] + x[1..] && y == [y[0]] + y[1..];
    }
  }

  /** Strip a common tag, then split the field value off at its closing quote. */
  lemma LabelledField(tag: string, x: string, y: string, r1: string, r2: string)
    requires QuoteFree(x) && QuoteFree(y)
    requires |r1| > 0 && r1[0] == '\'' && |r2| > 0 && r2[0] == '\''
    requires tag + (x + r1) == tag + (y + r2)
    ensures x == y && r1 == r2
  {
    assert (tag + (x + r1))[|tag|..] == x + r1;
    assert (tag + (y + r2))[|tag|..] == y + r2;
    SplitAtQuote(x, y, r1, r2);
  }

  function ToStringFrom(a: IoTAsset, field: nat): string
    requires 1 <= field <= 5
    decreases 5 - field
  {
    if field == 1 then "IoTAsset{id='" + (a.id + ToStringFrom(a, 2))
    else if field == 2 then "', idCloudProvider='" + (a.idCloudProvider + ToStringFrom(a, 3))
    else if field == 3 then "', empreinteRadio='" + (a.empreinteRadio + ToStringFrom(a, 4))
    else if field == 4 then "', adresseMac='" + (a.adresseMac + ToStringFrom(a, 5))
    else "', idFabricant='" + (a.idFabricant + "'}")
  }

  lemma ToStringNested(a: IoTAsset)
    ensures ToString(a) == ToStringFrom(a, 1)
  {
    var l1, l2, l3, l4, l5, e := "IoTAsset{id='", "', idCloudProvider='", "', empreinteRadio='", "', adresseMac='", "', idFabricant='", "'}";
    var t5 := a.idFabricant + e;
    var t4 := a.adresseMac + (l5 + t5);
    var t3 := a.empreinteRadio + (l4 + t4);
    var t2 := a.idCloudProvider + (l3 + t3);
    var p5 := l1 + a.id + l2 + a.idCloudProvider + l3 + a.empreinteRadio + l4 + a.adresseMac + l5;
    Associative(p5, a.idFabricant, e);
    Associative(l1 + a.id + l2 + a.idCloudProvider + l3 + a.empreinteRadio + l4 + a.adresseMac, l5, t5);
    Associative(l1 + a.id + l2 + a.idCloudProvider + l3 + a.empreinteRadio + l4, a.adresseMac, l5 + t5);
    Associative(l1 + a.id + l2 + a.idCloudProvider + l3 + a.empreinteRadio, l4, t4);
    Associative(l1 + a.id + l2 + a.idCloudProvider + l3, a.empreinteRadio, l4 + t4);
    Associative(l1 + a.id + l2 + a.idCloudProvider, l3, t3);
    Associative(l1 + a.id + l2, a.idCloudProvider, l3 + t3);
    Associative(l1 + a.id, l2, t2);
    Associative(l1, a.id, l2 + t2);
  }

  /**
    `toString` lists the five fields in the fixed order id, idCloudProvider, empreinteRadio,
    adresseMac, idFabricant: as long as no field contains a single quote, the text determines
    the asset.
   */
  lemma ToStringInjective(a: IoTAsset, b: IoTAsset)
    requires QuoteFree(a.id) && QuoteFree(a.idCloudProvider) && QuoteFree(a.empreinteRadio)
    requires QuoteFree(a.adresseMac) && QuoteFree(a.idFabricant)
    requires QuoteFree(b.id) && QuoteFree(b.idCloudProvider) && QuoteFree(b.empreinteRadio)
    requires QuoteFree(b.adresseMac) && QuoteFree(b.idFabricant)
    requires ToString(a) == ToString(b)
    ensures a == b
  {
    ToStringNested(a);
    ToStringNested(b);
    LabelledField("IoTAsset{id='", a.id, b.id, ToStringFrom(a, 2), ToStringFrom(b, 2));
    LabelledField("', idCloudProvider='", a.idCloudProvider, b.idCloudProvider, ToStringFrom(a, 3), ToStringFrom(b, 3));
    LabelledField("', empreinteRadio='", a.empreinteRadio, b.empreinteRadio, ToStringFrom(a, 4), ToStringFrom(b, 4));
    LabelledField("', adresseMac='", a.adresseMac, b.adresseMac, ToStringFrom(a, 5), ToStringFrom(b, 5));
    LabelledField("', idFabricant='", a.idFabricant, b.idFabricant, "'}", "'}");
  }
}
