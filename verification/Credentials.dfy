/**
 The credentials decoder (`components/btp-service-broker/btp/bindings/credentials.go`) and the
 encoder of the BTP operator that it undoes. Byte strings are strings; JSON text is read and
 written by a codec of which only "parsing inverts printing" is known.
 */
module Credentials {
  import opened Prelude
  import opened Json

  const METADATA := ".metadata"
  const PROPERTIES := "credentialProperties"

  /** JSON text. */
  datatype Codec = Codec(parse: string -> Result<Json>, unparse: Json -> string)

  ghost predicate Inverts(c: Codec) {
    forall j :: c.parse(c.unparse(j)) == Ok(j)
  }

  type SecretData = map<string, string>

  datatype Property = Property(name: string, format: string)

  // ----- the metadata document -----

  /** Unmarshalling into a Go string: null leaves it empty. */
  function ToText(j: Json): Result<string> {
    match j
    case Null => Ok("")
    case Str(s) => Ok(s)
    case _ => Err("cannot unmarshal into a string")
  }

  function Member(f: Fields, k: string): Json {
    if k in f then f[k] else Null
  }

  function ToProperty(j: Json): Result<Property> {
    if j.Null? then Ok(Property("", ""))
    else if !j.Obj? then Err("cannot unmarshal into a property")
    else if ToText(Member(j.fields, "name")).Err? then Err(ToText(Member(j.fields, "name")).message)
    else if ToText(Member(j.fields, "format")).Err? then Err(ToText(Member(j.fields, "format")).message)
    else Ok(Property(ToText(Member(j.fields, "name")).value, ToText(Member(j.fields, "format")).value))
  }

  function ToProperties(items: seq<Json>): Result<seq<Property>> {
    if items == [] then Ok([])
    else match ToProperty(items[0])
         case Err(m) => Err(m)
         case Ok(p) => match ToProperties(items[1..])
                       case Err(m) => Err(m)
                       case Ok(ps) => Ok([p] + ps)
  }

  function ToMetadata(j: Json): Result<seq<Property>> {
    if j.Null? then Ok([])
    else if !j.Obj? then Err("cannot unmarshal into metadata")
    else match Member(j.fields, PROPERTIES)
         case Null => Ok([])
         case Arr(items) => ToProperties(items)
         case _ => Err("cannot unmarshal into a property list")
  }

  // ----- the decoder -----

  function DecodeValue(c: Codec, data: SecretData, p: Property): Result<Json> {
    if p.name !in data then Err("missing credentials property")
    else if p.format == "json" then c.parse(data[p.name])
    else if p.format == "text" then Ok(Str(data[p.name]))
    else Err("unsupported credentials property format")
  }

  /** The object that the properties describe, listing after listing, or the first error. */
  function Decoded(c: Codec, data: SecretData, ps: seq<Property>): Result<Fields> {
    if ps == [] then Ok(map[]) else
    var last := ps[|ps| - 1];
    match Decoded(c, data, ps[..|ps| - 1])
    case Err(m) => Err(m)
    case Ok(obj) =>
      match DecodeValue(c, data, last)
      case Err(m) => Err(m)
      case Ok(v) => Ok(obj[last.name := v])
  }

  function AsObject(r: Result<Fields>): Result<Json> {
    match r
    case Err(m) => Err(m)
    case Ok(obj) => Ok(Obj(obj))
  }

  function DecodeBinding(c: Codec, data: SecretData): Result<Json> {
    if METADATA !in data then Err("secret data does not contain .metadata key") else
    match c.parse(data[METADATA])
    case Err(m) => Err(m)
    case Ok(j) =>
      match ToMetadata(j)
      case Err(m) => Err(m)
      case Ok(ps) => AsObject(Decoded(c, data, ps))
  }

  lemma DecodedStep(c: Codec, data: SecretData, ps: seq<Property>, i: nat)
    requires i < |ps|
    ensures Decoded(c, data, ps[..i + 1]) ==
            match Decoded(c, data, ps[..i])
            case Err(m) => Err(m)
            case Ok(obj) => match DecodeValue(c, data, ps[i])
                            case Err(m) => Err(m)
                            case Ok(v) => Ok(obj[ps[i].name := v])
  {
    assert ps[..i + 1][..i] == ps[..i];
  }

  /** An error stops the decoding. */
  lemma {:induction false} FirstErrorStays(c: Codec, data: SecretData, ps: seq<Property>, i: nat)
    requires i <= |ps| && Decoded(c, data, ps[..i]).Err?
    ensures Decoded(c, data, ps) == Decoded(c, data, ps[..i])
    decreases |ps| - i
  {
    if i == |ps| {
      assert ps[..i] == ps;
    } else {
      DecodedStep(c, data, ps, i);
      FirstErrorStays(c, data, ps, i + 1);
    }
  }

  method DecodeSecretKeys(c: Codec, data: SecretData, properties: seq<Property>) returns (r: Result<Json>)
    ensures r == AsObject(Decoded(c, data, properties))
  {
    var decodedObject: Fields := map[];
    for i := 0 to |properties|
      invariant Decoded(c, data, properties[..i]) == Ok(decodedObject)
    {
      var property := properties[i];
      DecodedStep(c, data, properties, i);
      if property.name !in data {
        FirstErrorStays(c, data, properties, i + 1);
        return Err("missing credentials property");
      }
      var encodedSecretValue := data[property.name];
      match property.format
      case "json" =>
        var decodedValue := c.parse(encodedSecretValue);
        if decodedValue.Err? {
          FirstErrorStays(c, data, properties, i + 1);
          return Err(decodedValue.message);
        }
        decodedObject := decodedObject[property.name := decodedValue.value];
      case "text" =>
        decodedObject := decodedObject[property.name := Str(encodedSecretValue)];
      case _ =>
        FirstErrorStays(c, data, properties, i + 1);
        return Err("unsupported credentials property format");
    }
    assert properties[..|properties|] == properties;
    r := Ok(Obj(decodedObject));
  }

  method DecodeBindingSecretData(c: Codec, secretData: SecretData) returns (r: Result<Json>)
    ensures r == DecodeBinding(c, secretData)
  {
    if METADATA !in secretData {
      return Err("secret data does not contain .metadata key");
    }
    var json := c.parse(secretData[METADATA]);
    if json.Err? {
      return Err(json.message);
    }
    var metadata := ToMetadata(json.value);
    if metadata.Err? {
      return Err(metadata.message);
    }
    r := DecodeSecretKeys(c, secretData, metadata.value);
  }

  // ----- what the decoded object is -----

  /** The listing of a name that counts is the last one. */
  predicate LastListing(ps: seq<Property>, i: nat) {
    i < |ps| && forall j :: i < j < |ps| ==> ps[j].name != ps[i].name
  }

  predicate Listed(ps: seq<Property>, name: string) {
    exists i :: 0 <= i < |ps| && ps[i].name == name
  }

  ghost predicate AllDecode(c: Codec, data: SecretData, ps: seq<Property>) {
    forall p :: p in ps ==> DecodeValue(c, data, p).Ok?
  }

  lemma {:induction false} DecodedIffAll(c: Codec, data: SecretData, ps: seq<Property>)
    ensures Decoded(c, data, ps).Ok? <==> AllDecode(c, data, ps)
  {
    if ps != [] {
      var before, last := ps[..|ps| - 1], ps[|ps| - 1];
      DecodedIffAll(c, data, before);
      assert ps == before + [last];
      assert last in ps;
    }
  }

  lemma {:induction false} DecodedKeys(c: Codec, data: SecretData, ps: seq<Property>, k: string)
    requires Decoded(c, data, ps).Ok?
    ensures k in Decoded(c, data, ps).value <==> Listed(ps, k)
  {
    if ps != [] {
      var n := |ps| - 1;
      var before := ps[..n];
      DecodedKeys(c, data, before, k);
      if Listed(before, k) { var i :| 0 <= i < n && before[i].name == k; assert ps[i].name == k; }
      if Listed(ps, k) && k != ps[n].name { var i :| 0 <= i < |ps| && ps[i].name == k; assert before[i].name == k; }
    }
  }

  lemma {:induction false} DecodedAt(c: Codec, data: SecretData, ps: seq<Property>, i: nat)
    requires Decoded(c, data, ps).Ok? && LastListing(ps, i)
    ensures ps[i].name in Decoded(c, data, ps).value
    ensures DecodeValue(c, data, ps[i]) == Ok(Decoded(c, data, ps).value[ps[i].name])
  {
    if i < |ps| - 1 {
      assert ps[|ps| - 1].name != ps[i].name;
      DecodedAt(c, data, ps[..|ps| - 1], i);
    }
  }

  /** Decoding succeeds exactly if every listed property is there in a readable form; the object has
      exactly the listed names, each with the value of its last listing. */
  lemma DecodedMeans(c: Codec, data: SecretData, ps: seq<Property>)
    ensures var r := Decoded(c, data, ps);
            && (r.Ok? <==> AllDecode(c, data, ps))
            && (r.Ok? ==> forall k :: k in r.value <==> Listed(ps, k))
            && (r.Ok? ==> forall i: nat :: LastListing(ps, i) ==>
                  ps[i].name in r.value && DecodeValue(c, data, ps[i]) == Ok(r.value[ps[i].name]))
  {
    DecodedIffAll(c, data, ps);
    if Decoded(c, data, ps).Ok? {
      forall k { DecodedKeys(c, data, ps, k); }
      forall i: nat | LastListing(ps, i) { DecodedAt(c, data, ps, i); }
    }
  }

  /** A listed value is read from the entry of its name: as it is if it is text, parsed if it is JSON. */
  lemma DecodeValueMeans(c: Codec, data: SecretData, p: Property)
    ensures var r := DecodeValue(c, data, p);
            && (p.name !in data ==> r == Err("missing credentials property"))
            && (p.name in data && p.format == "text" ==> r == Ok(Str(data[p.name])))
            && (p.name in data && p.format == "json" ==> r == c.parse(data[p.name]))
            && (p.name in data && p.format !in ["text", "json"] ==> r == Err("unsupported credentials property format"))
  {
  }

  function ValueErrors(c: Codec, data: SecretData, ps: seq<Property>): seq<Option<string>> {
    seq(|ps|, i requires 0 <= i < |ps| => ErrorOf(DecodeValue(c, data, ps[i])))
  }

  lemma {:induction false} FirstOfParts(a: seq<Option<string>>, b: seq<Option<string>>)
    ensures First(a + b) == if First(a).Some? then First(a) else First(b)
  {
    if a == [] {
      assert a + b == b;
    } else {
      assert (a + b)[1..] == a[1..] + b;
      FirstOfParts(a[1..], b);
    }
  }

  /** Decoding ends with the error of the first listing that has one. */
  lemma {:induction false} DecodedError(c: Codec, data: SecretData, ps: seq<Property>)
    ensures ErrorOf(Decoded(c, data, ps)) == First(ValueErrors(c, data, ps))
  {
    if ps != [] {
      var before, last := ps[..|ps| - 1], ps[|ps| - 1];
      DecodedError(c, data, before);
      assert ValueErrors(c, data, ps) == ValueErrors(c, data, before) + [ErrorOf(DecodeValue(c, data, last))];
      FirstOfParts(ValueErrors(c, data, before), [ErrorOf(DecodeValue(c, data, last))]);
      assert First([ErrorOf(DecodeValue(c, data, last))]) == ErrorOf(DecodeValue(c, data, last));
    }
  }

  // ----- what the metadata document is -----

  predicate TextOrNothing(f: Fields, k: string) {
    k in f ==> f[k].Null? || f[k].Str?
  }

  function TextAt(f: Fields, k: string): string {
    if k in f && f[k].Str? then f[k].s else ""
  }

  /** A listing is an object with a name and a format, either of which may be missing; null is an empty one. */
  predicate IsListing(j: Json) {
    j.Null? || (j.Obj? && TextOrNothing(j.fields, "name") && TextOrNothing(j.fields, "format"))
  }

  function ListingOf(j: Json): Property {
    if j.Obj? then Property(TextAt(j.fields, "name"), TextAt(j.fields, "format")) else Property("", "")
  }

  predicate HasListings(j: Json) {
    j.Obj? && "credentialProperties" in j.fields && j.fields["credentialProperties"].Arr?
  }

  /** A document without listings, as far as unmarshalling goes. */
  predicate HasNone(j: Json) {
    j.Null? || (j.Obj? && ("credentialProperties" !in j.fields || j.fields["credentialProperties"].Null?))
  }

  lemma ListingMeans(j: Json)
    ensures ToProperty(j).Ok? <==> IsListing(j)
    ensures ToProperty(j).Ok? ==> ToProperty(j).value == ListingOf(j)
  {
  }

  lemma {:induction false} ListingsMean(items: seq<Json>)
    ensures ToProperties(items).Ok? <==> forall i :: 0 <= i < |items| ==> IsListing(items[i])
    ensures ToProperties(items).Ok? ==>
              |ToProperties(items).value| == |items| &&
              forall i :: 0 <= i < |items| ==> ToProperties(items).value[i] == ListingOf(items[i])
  {
    if items != [] {
      ListingsMean(items[1..]);
      ListingMeans(items[0]);
      forall i | 0 < i < |items| ensures items[i] == items[1..][i - 1] { }
      assert (forall i :: 0 <= i < |items| ==> IsListing(items[i])) ==> forall i :: 0 <= i < |items[1..]| ==> IsListing(items[1..][i]);
    }
  }

  /** The metadata is read exactly if it lists nothing, or lists listings only; then these, in their order. */
  lemma MetadataMeans(j: Json)
    ensures var r := ToMetadata(j);
            && (HasNone(j) ==> r == Ok([]))
            && (HasListings(j) ==>
                  var items := j.fields["credentialProperties"].items;
                  && (r.Ok? <==> forall i :: 0 <= i < |items| ==> IsListing(items[i]))
                  && (r.Ok? ==> |r.value| == |items| && forall i :: 0 <= i < |items| ==> r.value[i] == ListingOf(items[i])))
            && (!HasNone(j) && !HasListings(j) ==> r.Err?)
  {
    if HasListings(j) { ListingsMean(j.fields["credentialProperties"].items); }
  }

  /** The secret is decoded exactly if its metadata entry is there, is JSON, is a metadata document, and lists only
      what can be decoded; then to the object of the listings. */
  lemma DecodeBindingMeans(c: Codec, data: SecretData)
    ensures var r := DecodeBinding(c, data);
            && (".metadata" !in data ==> r == Err("secret data does not contain .metadata key"))
            && (".metadata" in data ==>
                  match c.parse(data[".metadata"])
                  case Err(m) => r == Err(m)
                  case Ok(j) =>
                    match ToMetadata(j)
                    case Err(m) => r == Err(m)
                    case Ok(ps) =>
                      && ErrorOf(r) == First(ValueErrors(c, data, ps))
                      && (r.Ok? ==>
                            && r.value.Obj?
                            && (forall k :: k in r.value.fields <==> Listed(ps, k))
                            && forall i: nat :: LastListing(ps, i) ==>
                                 ps[i].name in r.value.fields && DecodeValue(c, data, ps[i]) == Ok(r.value.fields[ps[i].name])))
  {
    if METADATA in data && c.parse(data[METADATA]).Ok? && ToMetadata(c.parse(data[METADATA]).value).Ok? {
      var ps := ToMetadata(c.parse(data[METADATA]).value).value;
      DecodedError(c, data, ps);
      DecodedMeans(c, data, ps);
    }
  }

  predicate Distinct(ps: seq<Property>) {
    forall i, j :: 0 <= i < j < |ps| ==> ps[i].name != ps[j].name
  }

  ghost predicate SameListings(ps: seq<Property>, qs: seq<Property>) {
    forall p :: p in ps <==> p in qs
  }

  /** With distinct names the order of the listings does not matter, except for which error is found
      first. */
  lemma OrderDoesNotMatter(c: Codec, data: SecretData, ps: seq<Property>, qs: seq<Property>)
    requires Distinct(ps) && Distinct(qs) && SameListings(ps, qs)
    ensures Decoded(c, data, ps).Ok? <==> Decoded(c, data, qs).Ok?
    ensures Decoded(c, data, ps).Ok? ==> Decoded(c, data, ps) == Decoded(c, data, qs)
  {
    SucceedsToo(c, data, ps, qs);
    SucceedsToo(c, data, qs, ps);
  }

  lemma SameValue(c: Codec, data: SecretData, ps: seq<Property>, qs: seq<Property>, k: string)
    requires Distinct(ps) && Distinct(qs) && SameListings(ps, qs)
    requires Decoded(c, data, ps).Ok? && Decoded(c, data, qs).Ok? && k in Decoded(c, data, ps).value
    ensures k in Decoded(c, data, qs).value && Decoded(c, data, ps).value[k] == Decoded(c, data, qs).value[k]
  {
    DecodedKeys(c, data, ps, k);
    var i :| 0 <= i < |ps| && ps[i].name == k;
    assert ps[i] in qs;
    var j :| 0 <= j < |qs| && qs[j] == ps[i];
    DecodedAt(c, data, ps, i);
    DecodedAt(c, data, qs, j);
  }

  lemma SucceedsToo(c: Codec, data: SecretData, ps: seq<Property>, qs: seq<Property>)
    requires Distinct(ps) && Distinct(qs) && SameListings(ps, qs)
    ensures Decoded(c, data, ps).Ok? ==> Decoded(c, data, ps) == Decoded(c, data, qs)
  {
    DecodedIffAll(c, data, ps);
    DecodedIffAll(c, data, qs);
    if Decoded(c, data, ps).Ok? {
      assert AllDecode(c, data, qs);
      var r, r' := Decoded(c, data, ps).value, Decoded(c, data, qs).value;
      forall k | k in r ensures k in r' && r[k] == r'[k] { SameValue(c, data, ps, qs, k); }
      forall k | k in r' ensures k in r { SameValue(c, data, qs, ps, k); }
      assert r == r';
    }
  }

  // ----- the encoder -----

  function FormatOf(v: Json): string {
    if v.Str? then "text" else "json"
  }

  function Encoded(c: Codec, v: Json): string {
    if v.Str? then v.s else c.unparse(v)
  }

  /** The operator lists every name once, in whatever order it walks its map. */
  predicate ListsAll(creds: Fields, order: seq<string>) {
    && (forall k :: k in creds ==> k in order)
    && (forall k :: k in order ==> k in creds)
  }

  function Properties(creds: Fields, order: seq<string>): seq<Property>
    requires ListsAll(creds, order)
  {
    seq(|order|, i requires 0 <= i < |order| => Property(order[i], FormatOf(creds[order[i]])))
  }

  function PropertyJson(p: Property): Json {
    Obj(map["name" := Str(p.name), "format" := Str(p.format)])
  }

  function PropertyItems(ps: seq<Property>): seq<Json> {
    seq(|ps|, i requires 0 <= i < |ps| => PropertyJson(ps[i]))
  }

  function MetadataDoc(creds: Fields, order: seq<string>): Json
    requires ListsAll(creds, order)
  {
    Obj(map[PROPERTIES := Arr(PropertyItems(Properties(creds, order)))])
  }

  /** The secret: one entry a credential, the metadata entry on top. */
  function Encode(c: Codec, creds: Fields, order: seq<string>): SecretData
    requires ListsAll(creds, order)
  {
    (map k | k in creds :: Encoded(c, creds[k]))[METADATA := c.unparse(MetadataDoc(creds, order))]
  }

  lemma {:induction false} ItemsReadBack(ps: seq<Property>)
    ensures ToProperties(PropertyItems(ps)) == Ok(ps)
  {
    if ps != [] {
      var f := PropertyJson(ps[0]).fields;
      assert PropertyItems(ps)[0] == Obj(f) && PropertyItems(ps)[1..] == PropertyItems(ps[1..]);
      ItemsReadBack(ps[1..]);
      assert Member(f, "name") == Str(ps[0].name) && Member(f, "format") == Str(ps[0].format);
      assert [ps[0]] + ps[1..] == ps;
    }
  }

  lemma MetadataReadBack(c: Codec, creds: Fields, order: seq<string>)
    requires Inverts(c) && ListsAll(creds, order)
    ensures c.parse(c.unparse(MetadataDoc(creds, order))) == Ok(MetadataDoc(creds, order))
    ensures ToMetadata(MetadataDoc(creds, order)) == Ok(Properties(creds, order))
  {
    ItemsReadBack(Properties(creds, order));
  }

  /** What the decoder finds under one credential's name. */
  function ReadBack(c: Codec, creds: Fields, order: seq<string>, k: string): Json
    requires ListsAll(creds, order) && k in creds
  {
    if k != METADATA then creds[k]
    else if creds[k].Str? then Str(c.unparse(MetadataDoc(creds, order)))
    else MetadataDoc(creds, order)
  }

  lemma ValueReadBack(c: Codec, creds: Fields, order: seq<string>, data: SecretData, k: string)
    requires Inverts(c) && ListsAll(creds, order) && k in creds
    requires k in data && data[k] == Encode(c, creds, order)[k]
    ensures DecodeValue(c, data, Property(k, FormatOf(creds[k]))) == Ok(ReadBack(c, creds, order, k))
  {
  }

  /** The entries of the encoded secret, and any others. */
  predicate Extends(data: SecretData, encoded: SecretData) {
    forall k :: k in encoded ==> k in data && data[k] == encoded[k]
  }

  function AllReadBack(c: Codec, creds: Fields, order: seq<string>): Fields
    requires ListsAll(creds, order)
  {
    map k | k in creds :: ReadBack(c, creds, order, k)
  }

  lemma ListingReadBack(c: Codec, creds: Fields, order: seq<string>, data: SecretData, i: nat)
    requires Inverts(c) && ListsAll(creds, order) && Extends(data, Encode(c, creds, order)) && i < |order|
    ensures var p := Properties(creds, order)[i];
            && p.name == order[i] && p.name in creds
            && DecodeValue(c, data, p) == Ok(AllReadBack(c, creds, order)[p.name])
  {
    assert order[i] in creds && order[i] in Encode(c, creds, order);
    ValueReadBack(c, creds, order, data, order[i]);
  }

  lemma EverythingListed(creds: Fields, order: seq<string>, k: string)
    requires ListsAll(creds, order) && k in creds
    ensures Listed(Properties(creds, order), k)
  {
    var i :| 0 <= i < |order| && order[i] == k;
    assert Properties(creds, order)[i].name == k;
  }

  lemma ListedReadBack(c: Codec, creds: Fields, order: seq<string>, data: SecretData)
    requires Inverts(c) && ListsAll(creds, order) && Extends(data, Encode(c, creds, order))
    ensures Decoded(c, data, Properties(creds, order)) == Ok(AllReadBack(c, creds, order))
  {
    var ps := Properties(creds, order);
    forall i: nat | i < |ps| { ListingReadBack(c, creds, order, data, i); }
    forall k | k in creds { EverythingListed(creds, order, k); }
    DecodedIffAll(c, data, ps);
    ValuesMakeMap(c, data, ps, AllReadBack(c, creds, order));
  }

  /** An object is decoded if every listing has the object's value and every member is listed. */
  lemma ValuesMakeMap(c: Codec, data: SecretData, ps: seq<Property>, obj: Fields)
    requires Decoded(c, data, ps).Ok?
    requires forall i :: 0 <= i < |ps| ==> ps[i].name in obj && DecodeValue(c, data, ps[i]) == Ok(obj[ps[i].name])
    requires forall k :: k in obj ==> Listed(ps, k)
    ensures Decoded(c, data, ps) == Ok(obj)
  {
    var r := Decoded(c, data, ps).value;
    forall k ensures Get(r, k) == Get(obj, k) {
      DecodedKeys(c, data, ps, k);
      if Listed(ps, k) {
        var i :| 0 <= i < |ps| && ps[i].name == k;
        var last := LastOf(ps, k, i);
        DecodedAt(c, data, ps, last);
      }
    }
    SameFields(r, obj);
  }

  lemma LastOf(ps: seq<Property>, name: string, i: nat) returns (last: nat)
    requires i < |ps| && ps[i].name == name
    ensures LastListing(ps, last) && ps[last].name == name
  {
    last := |ps| - 1;
    while ps[last].name != name
      invariant i <= last < |ps| && forall j :: last < j < |ps| ==> ps[j].name != name
      decreases last
    {
      last := last - 1;
    }
  }

  /** Decoding what was encoded gives the credentials back, in whatever order they are listed and
      whatever other entries the secret has; the one exception is a credential called ".metadata",
      whose entry the encoder overwrites: it survives only if it happens to be that very text. */
  lemma RoundTripIff(c: Codec, creds: Fields, order: seq<string>, data: SecretData)
    requires Inverts(c) && ListsAll(creds, order) && Extends(data, Encode(c, creds, order))
    ensures DecodeBinding(c, data).Ok?
    ensures DecodeBinding(c, data) == Ok(Obj(creds)) <==>
              METADATA in creds ==>
                creds[METADATA] == if creds[METADATA].Str? then Str(data[METADATA]) else MetadataDoc(creds, order)
  {
    MetadataReadBack(c, creds, order);
    ListedReadBack(c, creds, order, data);
    var back := AllReadBack(c, creds, order);
    assert DecodeBinding(c, data) == Ok(Obj(back));
    if METADATA in creds {
      assert back[METADATA] == creds[METADATA] <==> back == creds;
    } else {
      assert back == creds;
    }
  }

  lemma RoundTrip(c: Codec, creds: Fields, order: seq<string>, data: SecretData)
    requires Inverts(c) && ListsAll(creds, order) && Extends(data, Encode(c, creds, order))
    requires METADATA !in creds
    ensures DecodeBinding(c, data) == Ok(Obj(creds))
  {
    RoundTripIff(c, creds, order, data);
  }

  /** For one, a number under that name. */
  lemma MetadataCredentialLost(c: Codec, n: int)
    requires Inverts(c)
    ensures var creds: Fields := map[METADATA := Num(n)];
            DecodeBinding(c, Encode(c, creds, [METADATA])) == Ok(Obj(map[METADATA := MetadataDoc(creds, [METADATA])]))
  {
    var creds: Fields := map[METADATA := Num(n)];
    var order := [METADATA];
    MetadataReadBack(c, creds, order);
    ListedReadBack(c, creds, order, Encode(c, creds, order));
    var back := AllReadBack(c, creds, order);
    assert back == map[METADATA := MetadataDoc(creds, order)];
  }

  /** Entries that the metadata does not list are ignored, in every secret. */
  lemma {:induction false} UnlistedIgnored(c: Codec, data: SecretData, data': SecretData, ps: seq<Property>)
    requires forall i :: 0 <= i < |ps| ==>
               (ps[i].name in data <==> ps[i].name in data') &&
               (ps[i].name in data ==> data[ps[i].name] == data'[ps[i].name])
    ensures Decoded(c, data, ps) == Decoded(c, data', ps)
  {
    if ps != [] {
      var before := ps[..|ps| - 1];
      forall i | 0 <= i < |before| ensures before[i] == ps[i] { }
      UnlistedIgnored(c, data, data', before);
    }
  }
}
