/**
 * The parsed asset as the format engine hands it over: names, the property tree,
 * the usmap schema and the asset object that owns them. Parsing and writing are
 * outside this model; these are the values they produce and consume.
 */
module AssetData {
  import opened Wrappers
  import opened TypeDescriptors

  /** A name as the asset format stores it. A dummy name carries its own text and is
      not bound to any asset; a regular name may or may not be bound to an asset, and
      its text may be absent. */
  datatype FName =
    | Dummy(dummyText: string)
    | Regular(hasAsset: bool, text: Option<string>)

  /** The text a name reads as (`name.Value?.Value`). */
  function NameText(n: FName): Option<string>
  {
    match n
    case Dummy(t) => Some(t)
    case Regular(_, t) => t
  }

  /** A name created for the asset from a literal (`new FName(asset, s)`). */
  function AssetName(s: string): (n: FName)
    ensures NameText(n) == Some(s) && n.Regular? && n.hasAsset
  {
    Regular(true, Some(s))
  }

  /** The chain of enclosing struct and class names of a property, as the engine
      resolves it before type names are reconstructed. */
  type Ancestry = seq<string>

  /** What every property carries: its name, the name of its property class
      (`PropertyType`), its complete type name if it has one, and its ancestry. */
  datatype Header = Header(name: FName, propertyType: Option<string>, typeName: Option<seq<TypeNode>>, ancestry: Ancestry)

  /** `BytePropertyType`: a plain numeric byte, or a byte that holds an enum value. */
  datatype ByteKind = PlainByte | EnumByte

  /** The payload of a simple property, as far as the core looks at it: the name held
      by a name property, or something the core never reads. */
  datatype Payload = NameValue(nameValue: FName) | Opaque

  datatype Entry = Entry(key: Property, val: Property)

  /** The closed set of property kinds the core distinguishes. A null list is the same
      to every operation as an empty one, so lists are never absent; a null element of
      a list is `None`. */
  datatype Property =
    | Struct(hdr: Header, structType: Option<FName>, children: seq<Option<Property>>)
    | RawStruct(hdr: Header, structType: Option<FName>)
    | Set(hdr: Header, elements: seq<Option<Property>>, removed: seq<Option<Property>>,
          arrayType: Option<FName>, dummyStructType: Option<FName>)
    | Array(hdr: Header, elements: seq<Option<Property>>, arrayType: Option<FName>, dummyStructType: Option<FName>)
    | Map(hdr: Header, entries: seq<Entry>, keysToRemove: seq<Option<Property>>,
          keyType: Option<FName>, valueType: Option<FName>)
    | Enum(hdr: Header, enumType: Option<FName>, innerType: Option<FName>, enumValue: Option<FName>)
    | Byte(hdr: Header, byteKind: ByteKind, enumType: Option<FName>)
    | Simple(hdr: Header, payload: Payload)

  /** One entry of a usmap schema (`UsmapPropertyData` and its subclasses). Container
      entries may lack their inner types. */
  datatype UsmapData =
    | UsmapArray(arrayType: string, inner: Option<UsmapData>)
    | UsmapMap(keyData: Option<UsmapData>, valueData: Option<UsmapData>)
    | UsmapStruct(structName: string)
    | UsmapEnum(enumName: string)
    | UsmapPlain(plainType: string)

  /** A schema answers lookups by property name and ancestry. */
  datatype SchemaKey = SchemaKey(name: FName, ancestry: Ancestry)

  type Schema = map<SchemaKey, UsmapData>

  /** An export of the asset: a normal export owns a list of top-level properties. */
  datatype Export =
    | NormalExport(objectName: string, data: seq<Option<Property>>)
    | OtherExport(objectName: string)

  /** The parsed asset (`UAsset`): the fields the core reads or updates. */
  class Asset {
    var mappings: Option<Schema>
    var hasUnversionedProperties: bool
    var objectVersionUE5: int
    var arrayStructTypeOverride: map<string, string>
    var exports: seq<Export>

    constructor (mappings: Option<Schema>, hasUnversionedProperties: bool, objectVersionUE5: int,
                 arrayStructTypeOverride: map<string, string>, exports: seq<Export>)
      ensures this.mappings == mappings && this.hasUnversionedProperties == hasUnversionedProperties
      ensures this.objectVersionUE5 == objectVersionUE5 && this.exports == exports
      ensures this.arrayStructTypeOverride == arrayStructTypeOverride
    {
      this.mappings := mappings;
      this.hasUnversionedProperties := hasUnversionedProperties;
      this.objectVersionUE5 := objectVersionUE5;
      this.arrayStructTypeOverride := arrayStructTypeOverride;
      this.exports := exports;
    }
  }
}
