/**
 * Steam collections (src/categories/categories.ts): the collection key and id
 * derived from a category name, the category payload and its JSON encoding.
 */
module Categories {
  import opened Wrappers
  import opened Errors
  import opened Json
  import opened Text

  /** The key prefix that marks collection entries among the other entries. */
  const SteamCollectionPrefix: string := "user-collections."

  /** The prefix of the ids of collections this program creates. */
  const CollectionIdPrefix: string := "ssg-"

  /** The characters the regular-expression class `\s` matches. */
  predicate IsWhitespace(c: char) {
    c == ' ' || c == '\t' || c == '\n' || c == '\U{B}' || c == '\U{C}' || c == '\r' ||
    c == '\U{A0}' || c == '\U{1680}' || ('\U{2000}' <= c <= '\U{200A}') ||
    c == '\U{2028}' || c == '\U{2029}' || c == '\U{202F}' || c == '\U{205F}' ||
    c == '\U{3000}' || c == '\U{FEFF}'
  }

  /** `name.replace(/\s/g, '-')`: every whitespace character becomes a hyphen. */
  function Hyphenate(name: string): (r: string)
    ensures |r| == |name|
    ensures forall i :: 0 <= i < |name| ==> r[i] == if IsWhitespace(name[i]) then '-' else name[i]
  {
    if name == [] then []
    else [if IsWhitespace(name[0]) then '-' else name[0]] + Hyphenate(name[1..])
  }

  /** The collection id of a category: `ssg-` and the name with whitespace hyphenated. */
  function CreateCollectionId(name: string): (r: string)
    ensures StartsWith(r, CollectionIdPrefix) && |r| == |name| + 4
    ensures forall i :: 4 <= i < |r| ==> !IsWhitespace(r[i])
    ensures forall i :: 0 <= i < |name| && !IsWhitespace(name[i]) ==> r[i + 4] == name[i]
    ensures forall i :: 0 <= i < |name| && IsWhitespace(name[i]) ==> r[i + 4] == '-'
  {
    CollectionIdPrefix + Hyphenate(name)
  }

  /** The entry key of a category's collection. */
  function CreateCollectionKey(name: string): (r: string)
    ensures StartsWith(r, SteamCollectionPrefix)
    ensures r[|SteamCollectionPrefix|..] == CreateCollectionId(name)
  {
    SteamCollectionPrefix + CreateCollectionId(name)
  }

  /** Names without whitespace get distinct ids. */
  lemma CollectionIdInjective(a: string, b: string)
    requires forall i :: 0 <= i < |a| ==> !IsWhitespace(a[i])
    requires forall i :: 0 <= i < |b| ==> !IsWhitespace(b[i])
    requires CreateCollectionId(a) == CreateCollectionId(b)
    ensures a == b
  {
    assert Hyphenate(a) == CreateCollectionId(a)[4..];
    assert Hyphenate(b) == CreateCollectionId(b)[4..];
    assert Hyphenate(a) == a;
    assert Hyphenate(b) == b;
  }

  /** Names that differ only by whitespace against hyphens share their collection key. */
  lemma CollectionKeyCollision()
    ensures CreateCollectionKey("a b") == CreateCollectionKey("a-b")
  {
    assert Hyphenate("a b") == "a-b";
    assert Hyphenate("a-b") == "a-b";
  }

  /** `SteamCategoryData`: the payload Steam stores for a collection. */
  datatype CategoryData = CategoryData(
    id: string,
    name: string,
    added: Option<seq<int>>,
    removed: Option<seq<int>>,
    filterSpec: Option<Value>)

  /** `SteamCategory`: a collection together with where and how it is stored. */
  datatype Category = Category(
    namespaceKey: Option<string>,
    entryKey: string,
    isDeleted: Option<bool>,
    data: Option<CategoryData>,
    version: Option<string>,
    timestamp: Option<int>)

  function Field(fields: map<string, Value>, name: string): (r: Option<Value>)
    ensures r.Some? <==> name in fields
    ensures r.Some? ==> r.value == fields[name]
  {
    if name in fields then Some(fields[name]) else None
  }

  function EncodeIdList(ids: seq<int>): (v: Value)
    ensures v.Arr? && |v.items| == |ids|
    ensures forall i :: 0 <= i < |ids| ==> v.items[i] == Num(ids[i])
  {
    Arr(seq(|ids|, i requires 0 <= i < |ids| => Num(ids[i])))
  }

  /** An optional list of game ids: absent or `null` is no list; anything but an array of numbers is malformed. */
  function DecodeIdList(v: Option<Value>): (r: Result<Option<seq<int>>, Error>)
    ensures r.Err? ==> r.error == MalformedCategory
    ensures r.Ok? && r.value.Some? ==> v == Some(EncodeIdList(r.value.value))
    ensures r.Ok? && r.value.None? ==> v.None? || v == Some(Null)
  {
    match v
    case None => Ok(None)
    case Some(Null) => Ok(None)
    case Some(Arr(items)) =>
      if forall i :: 0 <= i < |items| ==> items[i].Num? then
        var ids := seq(|items|, i requires 0 <= i < |items| => items[i].n);
        assert EncodeIdList(ids).items == items;
        Ok(Some(ids))
      else Err(MalformedCategory)
    case Some(_) => Err(MalformedCategory)
  }

  lemma DecodeEncodeIdList(ids: seq<int>)
    ensures DecodeIdList(Some(EncodeIdList(ids))) == Ok(Some(ids))
  {
    var items := EncodeIdList(ids).items;
    assert seq(|items|, i requires 0 <= i < |items| => items[i].n) == ids;
  }

  /** The JSON object of a payload; absent optional fields are left out. */
  function EncodeCategoryValue(d: CategoryData): (v: Value)
    ensures v.Obj? && "id" in v.fields && "name" in v.fields
    ensures v.fields["id"] == Str(d.id) && v.fields["name"] == Str(d.name)
    ensures ("added" in v.fields <==> d.added.Some?) && ("removed" in v.fields <==> d.removed.Some?)
    ensures "filterSpec" in v.fields <==> d.filterSpec.Some?
    ensures forall k :: k in v.fields ==> k in {"id", "name", "added", "removed", "filterSpec"}
  {
    var base := map["id" := Str(d.id), "name" := Str(d.name)];
    var withAdded := if d.added.Some? then base["added" := EncodeIdList(d.added.value)] else base;
    var withRemoved := if d.removed.Some? then withAdded["removed" := EncodeIdList(d.removed.value)] else withAdded;
    var all := if d.filterSpec.Some? then withRemoved["filterSpec" := d.filterSpec.value] else withRemoved;
    Obj(all)
  }

  /**
   * The payload of a parsed JSON value: an object whose `id` and `name` are
   * non-empty strings; `added`, `removed` and `filterSpec` are carried over and
   * every other property is dropped.
   */
  function DecodeCategoryValue(v: Value): (r: Result<CategoryData, Error>)
    ensures r.Err? ==> r.error == MalformedCategory
    ensures !v.Obj? ==> r.Err?
    ensures v.Obj? && !("id" in v.fields && Truthy(v.fields["id"])) ==> r.Err?
    ensures v.Obj? && !("name" in v.fields && Truthy(v.fields["name"])) ==> r.Err?
    ensures r.Ok? ==> r.value.id != "" && r.value.name != ""
    ensures r.Ok? ==> v.fields["id"] == Str(r.value.id) && v.fields["name"] == Str(r.value.name)
    ensures r.Ok? ==> Field(v.fields, "filterSpec") == r.value.filterSpec
    ensures r.Ok? ==> DecodeIdList(Field(v.fields, "added")) == Ok(r.value.added)
    ensures r.Ok? ==> DecodeIdList(Field(v.fields, "removed")) == Ok(r.value.removed)
  {
    match v
    case Obj(f) =>
      if !("id" in f && Truthy(f["id"])) || !("name" in f && Truthy(f["name"])) then Err(MalformedCategory)
      else if !f["id"].Str? || !f["name"].Str? then Err(MalformedCategory)
      else
        var added :- DecodeIdList(Field(f, "added"));
        var removed :- DecodeIdList(Field(f, "removed"));
        Ok(CategoryData(f["id"].s, f["name"].s, added, removed, Field(f, "filterSpec")))
    case _ => Err(MalformedCategory)
  }

  /** A payload survives encoding and decoding exactly when its id and name are non-empty. */
  lemma CategoryValueRoundTrip(d: CategoryData)
    ensures DecodeCategoryValue(EncodeCategoryValue(d)) == Ok(d) <==> d.id != "" && d.name != ""
  {
    if d.added.Some? {
      DecodeEncodeIdList(d.added.value);
    }
    if d.removed.Some? {
      DecodeEncodeIdList(d.removed.value);
    }
  }

  /** Decoding drops only what encoding does not write back: decoding the re-encoded payload gives it again. */
  lemma DecodedPayloadIsStable(v: Value)
    requires DecodeCategoryValue(v).Ok?
    ensures DecodeCategoryValue(EncodeCategoryValue(DecodeCategoryValue(v).value)) == DecodeCategoryValue(v)
  {
    CategoryValueRoundTrip(DecodeCategoryValue(v).value);
  }

  /** `decodeCategoryData`: parses the text and decodes the payload. */
  function DecodeCategoryData(text: JsonText, s: string): (r: Result<CategoryData, Error>)
    ensures text.parse(s).None? ==> r == Err(InvalidJson)
    ensures text.parse(s).Some? ==> r == DecodeCategoryValue(text.parse(s).value)
  {
    match text.parse(s)
    case None => Err(InvalidJson)
    case Some(v) => DecodeCategoryValue(v)
  }

  /** `encodeCategoryData`: the JSON text of the payload. */
  function EncodeCategoryData(text: JsonText, d: CategoryData): (s: string)
    ensures s == text.stringify(EncodeCategoryValue(d))
  {
    text.stringify(EncodeCategoryValue(d))
  }

  /** With a JSON text layer that round-trips the payload's object, the text round-trips the payload. */
  lemma CategoryDataRoundTrip(text: JsonText, d: CategoryData)
    requires RoundTripsOn(text, EncodeCategoryValue(d))
    requires d.id != "" && d.name != ""
    ensures DecodeCategoryData(text, EncodeCategoryData(text, d)) == Ok(d)
  {
    CategoryValueRoundTrip(d);
  }
}
