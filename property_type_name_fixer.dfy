/**
 * Reconstruction of complete type names (`PropertyTypeNameFixer`): every property
 * that lacks one gets a flat pre-order list of type nodes describing its type,
 * derived from its own kind, its first element or entry, the usmap schema, the
 * legacy type tags, and finally the placeholders "Generic" and "None".
 */
module PropertyTypeNameFixer {
  import opened Wrappers
  import opened TypeDescriptors
  import opened AssetData

  /** The object version from which property tags carry complete type names
      (`ObjectVersionUE5.PROPERTY_TAG_COMPLETE_TYPE_NAME`). */
  const PropertyTagCompleteTypeName: int := 1012

  /** What the builders read from the asset: its schema, if any, and its table of
      struct types for arrays whose element struct type is not recorded. */
  datatype Context = Context(mappings: Option<Schema>, arrayStructTypeOverride: map<string, string>)

  /** `asset.Mappings.TryGetPropertyData(property.Name, property.Ancestry, ...)`:
      the schema entry for a property, if there is a schema and it has one. */
  function Lookup(ctx: Context, p: Property): (r: Option<UsmapData>)
    ensures r.Some? <==> ctx.mappings.Some? && SchemaKey(p.hdr.name, p.hdr.ancestry) in ctx.mappings.value
    ensures r.Some? ==> r.value == ctx.mappings.value[SchemaKey(p.hdr.name, p.hdr.ancestry)]
  {
    var key := SchemaKey(p.hdr.name, p.hdr.ancestry);
    if ctx.mappings.Some? && key in ctx.mappings.value then Some(ctx.mappings.value[key]) else None
  }

  /** A name `EnsureName` keeps: a dummy, or a name bound to an asset that has text. */
  predicate Usable(n: FName)
  {
    n.Dummy? || (n.hasAsset && n.text.Some?)
  }

  /** The text of `n` transferred to the asset when it is usable, else `fallback`. */
  function EnsureName(n: Option<FName>, fallback: string): (r: string)
    ensures n.Some? && Usable(n.value) ==> Some(r) == NameText(n.value)
    ensures !(n.Some? && Usable(n.value)) ==> r == fallback
  {
    if n.None? then fallback
    else match n.value
      case Dummy(t) => t
      case Regular(hasAsset, t) =>
        if !hasAsset then fallback
        else if t.None? then fallback
        else t.value
  }

  /** A root type name that is empty becomes "None". */
  function SafeRoot(root: string): (r: string)
    ensures r != "" && (root != "" ==> r == root)
  {
    if root == "" then "None" else root
  }

  /** A root node followed by the given child nodes. */
  function BuildNodeList(root: string, innerCount: nat, children: seq<TypeNode>): (r: seq<TypeNode>)
    ensures |r| == 1 + |children| && r[1..] == children
    ensures r[0] == TypeNode(SafeRoot(root), innerCount)
    ensures OneTree(r) <==> Fits(children, innerCount)
  {
    [TypeNode(SafeRoot(root), innerCount)] + children
  }

  /** A type without parameters: one node, nothing after it. */
  function BuildSimpleNodes(root: string): (r: seq<TypeNode>)
    ensures r == [TypeNode(SafeRoot(root), 0)] && OneTree(r)
  {
    BuildNodeList(root, 0, [])
  }

  /** A single parameterless node is one complete tree. */
  lemma LeafIsOneTree(name: string)
    ensures OneTree([TypeNode(name, 0)])
  {
    assert [TypeNode(name, 0)][1..] == [];
  }

  /** A map type from its key type and its value type. */
  function MapNodeList(keyNodes: seq<TypeNode>, valueNodes: seq<TypeNode>): (r: seq<TypeNode>)
    requires OneTree(keyNodes) && OneTree(valueNodes)
    ensures OneTree(r) && r[0] == TypeNode("MapProperty", 2)
    ensures r[1..] == keyNodes + valueNodes
  {
    FitsConcat(keyNodes, 1, valueNodes, 1);
    BuildNodeList("MapProperty", 2, keyNodes + valueNodes)
  }

  /** A struct type: the root, then one leaf naming the struct. A missing struct type,
      or the placeholder "Generic", is first looked up in the schema. */
  function BuildStructNodes(ctx: Context, root: string, structType: Option<FName>, p: Property): (r: seq<TypeNode>)
    ensures |r| == 2 && r[0] == TypeNode(SafeRoot(root), 1) && r[1].innerCount == 0 && OneTree(r)
    ensures structType.Some? && NameText(structType.value) != Some("Generic") ==>
      r[1].name == EnsureName(structType, "Generic")
    ensures structType.None? || NameText(structType.value) == Some("Generic") ==>
      r[1].name == match Lookup(ctx, p) case Some(UsmapStruct(s)) => s case _ => "Generic"
  {
    var resolved :=
      if structType.None? || NameText(structType.value) == Some("Generic") then
        match Lookup(ctx, p)
        case Some(UsmapStruct(s)) => Some(AssetName(s))
        case _ => structType
      else structType;
    LeafIsOneTree(EnsureName(resolved, "Generic"));
    BuildNodeList(root, 1, [TypeNode(EnsureName(resolved, "Generic"), 0)])
  }

  /** An enum type: a missing enum type is looked up in the schema, else "None". */
  function BuildEnumNodes(ctx: Context, p: Property): (r: seq<TypeNode>)
    requires p.Enum?
    ensures |r| == 2 && r[0] == TypeNode("EnumProperty", 1) && r[1].innerCount == 0 && OneTree(r)
  {
    var resolved :=
      if p.enumType.None? then
        match Lookup(ctx, p)
        case Some(UsmapEnum(e)) => Some(AssetName(e))
        case _ => p.enumType
      else p.enumType;
    LeafIsOneTree(EnsureName(resolved, "None"));
    BuildNodeList("EnumProperty", 1, [TypeNode(EnsureName(resolved, "None"), 0)])
  }

  /** A byte type: a plain byte with no enum type gets "None" without a lookup; an
      enum byte with no enum type is looked up in the schema. */
  function BuildByteNodes(ctx: Context, p: Property): (r: seq<TypeNode>)
    requires p.Byte?
    ensures |r| == 2 && r[0] == TypeNode("ByteProperty", 1) && r[1].innerCount == 0 && OneTree(r)
  {
    var resolved :=
      if p.byteKind == PlainByte then
        (if p.enumType.None? then Some(AssetName("None")) else p.enumType)
      else if p.enumType.None? then
        match Lookup(ctx, p)
        case Some(UsmapEnum(e)) => Some(AssetName(e))
        case _ => p.enumType
      else p.enumType;
    LeafIsOneTree(EnsureName(resolved, "None"));
    BuildNodeList("ByteProperty", 1, [TypeNode(EnsureName(resolved, "None"), 0)])
  }

  /** The type a schema entry describes; an absent entry is the simple type "None". */
  function BuildNodesFromUsmap(d: Option<UsmapData>): (r: seq<TypeNode>)
    ensures OneTree(r)
    decreases d
  {
    match d
    case None => BuildSimpleNodes("None")
    case Some(UsmapMap(k, v)) => MapNodeList(BuildNodesFromUsmap(k), BuildNodesFromUsmap(v))
    case Some(UsmapArray(t, inner)) => BuildNodeList(t, 1, BuildNodesFromUsmap(inner))
    case Some(UsmapStruct(s)) => LeafIsOneTree(s); BuildNodeList("StructProperty", 1, [TypeNode(s, 0)])
    case Some(UsmapEnum(e)) => LeafIsOneTree(e); BuildNodeList("EnumProperty", 1, [TypeNode(e, 0)])
    case Some(UsmapPlain(t)) =>
      LeafIsOneTree("None");
      if t == "ByteProperty" then BuildNodeList("ByteProperty", 1, [TypeNode("None", 0)])
      else BuildSimpleNodes(t)
  }

  /** The struct type an array of structs records: its dummy struct's type, else the
      asset's override for the array's name. */
  function ArrayStructType(ctx: Context, p: Property): Option<FName>
    requires p.Set? || p.Array?
  {
    var name := NameText(p.hdr.name);
    if p.dummyStructType.None? && name.Some? && name.value in ctx.arrayStructTypeOverride
    then Some(AssetName(ctx.arrayStructTypeOverride[name.value]))
    else p.dummyStructType
  }

  /** The complete type name of a property. */
  function BuildNodes(ctx: Context, p: Property): (r: seq<TypeNode>)
    ensures OneTree(r)
    decreases p, 3
  {
    match p
    case Set(_, _, _, _, _) => BuildArrayNodes(ctx, p, "SetProperty")
    case Array(_, _, _, _) => BuildArrayNodes(ctx, p, "ArrayProperty")
    case Map(_, _, _, _, _) => BuildMapNodes(ctx, p)
    case Struct(h, st, _) => BuildStructNodes(ctx, h.propertyType.GetOr("StructProperty"), st, p)
    case RawStruct(h, st) => BuildStructNodes(ctx, h.propertyType.GetOr("RawStructProperty"), st, p)
    case Enum(_, _, _, _) => BuildEnumNodes(ctx, p)
    case Byte(_, _, _) => BuildByteNodes(ctx, p)
    case Simple(h, _) => BuildSimpleNodes(h.propertyType.GetOr("None"))
  }

  /** An array or set type: the root with one parameter, the element type. */
  function BuildArrayNodes(ctx: Context, p: Property, root: string): (r: seq<TypeNode>)
    requires p.Set? || p.Array?
    ensures OneTree(r) && r[0] == TypeNode(SafeRoot(root), 1)
    decreases p, 2
  {
    BuildNodeList(root, 1, GetArrayElementNodes(ctx, p))
  }

  /** The element type of an array or set, by strict priority: the first element,
      the schema, a missing tag (a struct), a struct tag, any other tag. */
  function GetArrayElementNodes(ctx: Context, p: Property): (r: seq<TypeNode>)
    requires p.Set? || p.Array?
    ensures OneTree(r)
    decreases p, 1
  {
    if |p.elements| > 0 && p.elements[0].Some? then BuildNodes(ctx, p.elements[0].value)
    else match Lookup(ctx, p)
      case Some(UsmapArray(_, inner)) => BuildNodesFromUsmap(inner)
      case _ =>
        if p.arrayType.None? then BuildStructNodes(ctx, "StructProperty", None, p)
        else if NameText(p.arrayType.value) == Some("StructProperty") then
          BuildStructNodes(ctx, "StructProperty", ArrayStructType(ctx, p), p)
        else BuildSimpleNodes(NameText(p.arrayType.value).GetOr("None"))
  }

  /** A map type: from the first entry, else the schema, else the key and value tags;
      a missing tag makes both halves struct types. */
  function BuildMapNodes(ctx: Context, p: Property): (r: seq<TypeNode>)
    requires p.Map?
    ensures OneTree(r) && r[0] == TypeNode("MapProperty", 2)
    decreases p, 2
  {
    if |p.entries| > 0 then
      MapNodeList(BuildNodes(ctx, p.entries[0].key), BuildNodes(ctx, p.entries[0].val))
    else match Lookup(ctx, p)
      case Some(UsmapMap(k, v)) => MapNodeList(BuildNodesFromUsmap(k), BuildNodesFromUsmap(v))
      case _ =>
        if p.keyType.None? || p.valueType.None? then
          MapNodeList(BuildStructNodes(ctx, "StructProperty", None, p), BuildStructNodes(ctx, "StructProperty", None, p))
        else
          MapNodeList(BuildSimpleNodes(NameText(p.keyType.value).GetOr("None")),
                      BuildSimpleNodes(NameText(p.valueType.value).GetOr("None")))
  }

  /** `s` is one of the lists of `parent` that the traversal descends into. */
  ghost predicate SlotsOf(parent: Property, s: seq<Option<Property>>)
  {
    || (parent.Struct? && s == parent.children)
    || ((parent.Set? || parent.Array?) && s == parent.elements)
    || (parent.Set? && s == parent.removed)
    || (parent.Map? && s == parent.keysToRemove)
  }

  /** The header of `p` once its missing type name has been filled in. */
  function Named(ctx: Context, p: Property): Header
  {
    if p.hdr.typeName.None? then p.hdr.(typeName := Some(BuildNodes(ctx, p))) else p.hdr
  }

  /** The property tree after `PopulateProperty`: every reached property without a
      type name gets `BuildNodes` of itself; nothing else changes. */
  ghost function Populated(ctx: Context, p: Property): Property
    decreases p, 1
  {
    var h := Named(ctx, p);
    match p
    case Struct(_, st, ch) => Struct(h, st, PopulatedSlots(ctx, ch, p))
    case RawStruct(_, st) => RawStruct(h, st)
    case Set(_, els, rem, at, ds) => Set(h, PopulatedSlots(ctx, els, p), PopulatedSlots(ctx, rem, p), at, ds)
    case Array(_, els, at, ds) => Array(h, PopulatedSlots(ctx, els, p), at, ds)
    case Map(_, es, ktr, kt, vt) => Map(h, PopulatedEntries(ctx, es, p), PopulatedSlots(ctx, ktr, p), kt, vt)
    case Enum(_, et, it, v) => Enum(h, et, it, v)
    case Byte(_, bk, et) => Byte(h, bk, et)
    case Simple(_, v) => Simple(h, v)
  }

  /** A list of properties after the traversal; null elements stay null. */
  ghost function PopulatedSlots(ctx: Context, s: seq<Option<Property>>, parent: Property): (r: seq<Option<Property>>)
    requires SlotsOf(parent, s)
    decreases parent, 0
  {
    seq(|s|, i requires 0 <= i < |s| => if s[i].Some? then Some(Populated(ctx, s[i].value)) else None)
  }

  /** The entries of a map after the traversal of every key and value. */
  ghost function PopulatedEntries(ctx: Context, es: seq<Entry>, parent: Property): seq<Entry>
    requires parent.Map? && es == parent.entries
    decreases parent, 0
  {
    seq(|es|, i requires 0 <= i < |es| => Entry(Populated(ctx, es[i].key), Populated(ctx, es[i].val)))
  }

  /** The top-level property list of an export after the traversal. */
  ghost function PopulatedData(ctx: Context, data: seq<Option<Property>>): seq<Option<Property>>
  {
    seq(|data|, i requires 0 <= i < |data| => if data[i].Some? then Some(Populated(ctx, data[i].value)) else None)
  }

  /** The exports after `Populate`: only normal exports are visited. */
  ghost function PopulatedExports(ctx: Context, exports: seq<Export>): seq<Export>
  {
    seq(|exports|, i requires 0 <= i < |exports| =>
      match exports[i]
      case NormalExport(n, d) => NormalExport(n, PopulatedData(ctx, d))
      case OtherExport(n) => OtherExport(n))
  }

  /** Whether `Populate` does anything: the asset uses versioned properties and is at
      least at the object version that introduced complete type names. */
  predicate ShouldPopulate(hasUnversionedProperties: bool, objectVersionUE5: int)
  {
    !hasUnversionedProperties && objectVersionUE5 >= PropertyTagCompleteTypeName
  }

  /** Fills in the missing type name of `p` and of every property below it. */
  method PopulateProperty(ctx: Context, p: Property) returns (q: Property)
    ensures q == Populated(ctx, p)
    decreases p, 1
  {
    var h := p.hdr;
    if h.typeName.None? {
      h := h.(typeName := Some(BuildNodes(ctx, p)));
    }
    match p
    case Struct(_, st, ch) =>
      var ch' := PopulateSlots(ctx, ch, p);
      q := Struct(h, st, ch');
    case RawStruct(_, st) =>
      q := RawStruct(h, st);
    case Set(_, els, rem, at, ds) =>
      var rem' := PopulateSlots(ctx, rem, p);
      var els' := PopulateSlots(ctx, els, p);
      q := Set(h, els', rem', at, ds);
    case Array(_, els, at, ds) =>
      var els' := PopulateSlots(ctx, els, p);
      q := Array(h, els', at, ds);
    case Map(_, es, ktr, kt, vt) =>
      var ktr' := PopulateSlots(ctx, ktr, p);
      var es' := PopulateEntries(ctx, es, p);
      q := Map(h, es', ktr', kt, vt);
    case Enum(_, et, it, v) =>
      q := Enum(h, et, it, v);
    case Byte(_, bk, et) =>
      q := Byte(h, bk, et);
    case Simple(_, v) =>
      q := Simple(h, v);
  }

  /** Visits each property of a list in order, skipping null elements. */
  method PopulateSlots(ctx: Context, s: seq<Option<Property>>, ghost parent: Property) returns (r: seq<Option<Property>>)
    requires SlotsOf(parent, s)
    ensures r == PopulatedSlots(ctx, s, parent)
    decreases parent, 0
  {
    r := [];
    var i := 0;
    while i < |s|
      invariant 0 <= i <= |s| && |r| == i
      invariant forall k :: 0 <= k < i ==> r[k] == PopulatedSlots(ctx, s, parent)[k]
    {
      if s[i].Some? {
        var c := PopulateProperty(ctx, s[i].value);
        r := r + [Some(c)];
      } else {
        r := r + [None];
      }
      i := i + 1;
    }
  }

  /** Visits the key and then the value of every map entry, in order. */
  method PopulateEntries(ctx: Context, es: seq<Entry>, ghost parent: Property) returns (r: seq<Entry>)
    requires parent.Map? && es == parent.entries
    ensures r == PopulatedEntries(ctx, es, parent)
    decreases parent, 0
  {
    r := [];
    var i := 0;
    while i < |es|
      invariant 0 <= i <= |es| && |r| == i
      invariant forall k :: 0 <= k < i ==> r[k] == PopulatedEntries(ctx, es, parent)[k]
    {
      var key := PopulateProperty(ctx, es[i].key);
      var val := PopulateProperty(ctx, es[i].val);
      r := r + [Entry(key, val)];
      i := i + 1;
    }
  }

  /** Visits the top-level properties of a normal export in order, skipping nulls. */
  method PopulateData(ctx: Context, data: seq<Option<Property>>) returns (r: seq<Option<Property>>)
    ensures r == PopulatedData(ctx, data)
  {
    r := [];
    var j := 0;
    while j < |data|
      invariant 0 <= j <= |data| && |r| == j
      invariant forall k :: 0 <= k < j ==> r[k] == PopulatedData(ctx, data)[k]
    {
      if data[j].Some? {
        var prop := PopulateProperty(ctx, data[j].value);
        r := r + [Some(prop)];
      } else {
        r := r + [None];
      }
      j := j + 1;
    }
  }

  /** Fills in every missing type name below the normal exports of `asset`, unless the
      asset is absent, uses unversioned properties, or predates complete type names. */
  method Populate(asset: Asset?)
    modifies asset
    ensures asset != null ==>
      && asset.mappings == old(asset.mappings)
      && asset.hasUnversionedProperties == old(asset.hasUnversionedProperties)
      && asset.objectVersionUE5 == old(asset.objectVersionUE5)
      && asset.arrayStructTypeOverride == old(asset.arrayStructTypeOverride)
    ensures asset != null ==>
      asset.exports ==
        if ShouldPopulate(old(asset.hasUnversionedProperties), old(asset.objectVersionUE5))
        then PopulatedExports(Context(old(asset.mappings), old(asset.arrayStructTypeOverride)), old(asset.exports))
        else old(asset.exports)
  {
    if asset == null { return; }
    if asset.hasUnversionedProperties { return; }
    if asset.objectVersionUE5 < PropertyTagCompleteTypeName { return; }

    var ctx := Context(asset.mappings, asset.arrayStructTypeOverride);
    ghost var original := asset.exports;
    var i := 0;
    while i < |asset.exports|
      invariant 0 <= i <= |asset.exports| == |original|
      decreases |asset.exports| - i
      invariant asset.mappings == old(asset.mappings) && asset.arrayStructTypeOverride == old(asset.arrayStructTypeOverride)
      invariant asset.hasUnversionedProperties == old(asset.hasUnversionedProperties)
      invariant asset.objectVersionUE5 == old(asset.objectVersionUE5)
      invariant forall k :: 0 <= k < i ==> asset.exports[k] == PopulatedExports(ctx, original)[k]
      invariant forall k :: i <= k < |original| ==> asset.exports[k] == original[k]
    {
      if asset.exports[i].NormalExport? {
        var name, data := asset.exports[i].objectName, asset.exports[i].data;
        var data' := PopulateData(ctx, data);
        asset.exports := asset.exports[i := NormalExport(name, data')];
      }
      i := i + 1;
    }
    assert asset.exports == PopulatedExports(ctx, original);
  }
}
