/**
 * What the reconstruction of complete type names guarantees: afterwards every
 * reached property has a type name, every type name it attaches is one well-formed
 * pre-order tree, type names that were present are kept, nothing else changes, and
 * running it again changes nothing.
 */
module PropertyTypeNameFixerProofs {
  import opened Wrappers
  import opened TypeDescriptors
  import opened AssetData
  import opened PropertyTypeNameFixer

  /** `f` holds of the header of `p` and of every property the traversal reaches
      below it. */
  ghost predicate Everywhere(p: Property, f: Header -> bool)
    decreases p
  {
    && f(p.hdr)
    && match p
       case Struct(_, _, ch) => forall i :: 0 <= i < |ch| && ch[i].Some? ==> Everywhere(ch[i].value, f)
       case Set(_, els, rem, _, _) =>
         && (forall i :: 0 <= i < |els| && els[i].Some? ==> Everywhere(els[i].value, f))
         && (forall i :: 0 <= i < |rem| && rem[i].Some? ==> Everywhere(rem[i].value, f))
       case Array(_, els, _, _) => forall i :: 0 <= i < |els| && els[i].Some? ==> Everywhere(els[i].value, f)
       case Map(_, es, ktr, _, _) =>
         && (forall i :: 0 <= i < |ktr| && ktr[i].Some? ==> Everywhere(ktr[i].value, f))
         && (forall i :: 0 <= i < |es| ==> Everywhere(es[i].key, f) && Everywhere(es[i].val, f))
       case _ => true
  }

  predicate HasTypeName(h: Header)
  {
    h.typeName.Some?
  }

  /** A type name, where present, is exactly one pre-order tree. */
  predicate TypeNameWellFormed(h: Header)
  {
    h.typeName.Some? ==> OneTree(h.typeName.value)
  }

  /** Headers agree except that a missing type name may have been filled in. */
  predicate HeaderFills(a: Header, b: Header)
  {
    b == a.(typeName := b.typeName) && (a.typeName.Some? ==> b.typeName == a.typeName)
  }

  /** Lists agree element by element (nulls stay null) up to `Fills`. */
  ghost predicate SlotsFill(s: seq<Option<Property>>, t: seq<Option<Property>>, parent: Property)
    requires SlotsOf(parent, s)
    decreases parent, 0
  {
    && |t| == |s|
    && forall i :: 0 <= i < |s| ==>
         (t[i].Some? <==> s[i].Some?) && (s[i].Some? ==> Fills(s[i].value, t[i].value))
  }

  /** `q` is `p` with some missing type names filled in: every other field, every list
      and every present type name is the same, at every depth. */
  ghost predicate Fills(p: Property, q: Property)
    decreases p, 1
  {
    && HeaderFills(p.hdr, q.hdr)
    && match p
       case Struct(_, st, ch) => q.Struct? && q.structType == st && SlotsFill(ch, q.children, p)
       case RawStruct(_, st) => q == RawStruct(q.hdr, st)
       case Set(_, els, rem, at, ds) =>
         q.Set? && q.arrayType == at && q.dummyStructType == ds
         && SlotsFill(els, q.elements, p) && SlotsFill(rem, q.removed, p)
       case Array(_, els, at, ds) =>
         q.Array? && q.arrayType == at && q.dummyStructType == ds && SlotsFill(els, q.elements, p)
       case Map(_, es, ktr, kt, vt) =>
         q.Map? && q.keyType == kt && q.valueType == vt && SlotsFill(ktr, q.keysToRemove, p)
         && |q.entries| == |es|
         && forall i :: 0 <= i < |es| ==> Fills(es[i].key, q.entries[i].key) && Fills(es[i].val, q.entries[i].val)
       case Enum(_, et, it, v) => q == Enum(q.hdr, et, it, v)
       case Byte(_, bk, et) => q == Byte(q.hdr, bk, et)
       case Simple(_, v) => q == Simple(q.hdr, v)
  }

  /** Only missing type names are filled in: every present type name, every other
      field and the shape of the tree are kept. */
  lemma {:induction false} PopulatedFills(ctx: Context, p: Property)
    ensures Fills(p, Populated(ctx, p))
    decreases p
  {
    match p
    case Struct(_, _, ch) =>
      forall i | 0 <= i < |ch| && ch[i].Some? ensures Fills(ch[i].value, Populated(ctx, ch[i].value)) {
        PopulatedFills(ctx, ch[i].value);
      }
    case Set(_, els, rem, _, _) =>
      forall i | 0 <= i < |els| && els[i].Some? ensures Fills(els[i].value, Populated(ctx, els[i].value)) {
        PopulatedFills(ctx, els[i].value);
      }
      forall i | 0 <= i < |rem| && rem[i].Some? ensures Fills(rem[i].value, Populated(ctx, rem[i].value)) {
        PopulatedFills(ctx, rem[i].value);
      }
    case Array(_, els, _, _) =>
      forall i | 0 <= i < |els| && els[i].Some? ensures Fills(els[i].value, Populated(ctx, els[i].value)) {
        PopulatedFills(ctx, els[i].value);
      }
    case Map(_, es, ktr, _, _) =>
      forall i | 0 <= i < |ktr| && ktr[i].Some? ensures Fills(ktr[i].value, Populated(ctx, ktr[i].value)) {
        PopulatedFills(ctx, ktr[i].value);
      }
      forall i | 0 <= i < |es|
        ensures Fills(es[i].key, Populated(ctx, es[i].key)) && Fills(es[i].val, Populated(ctx, es[i].val))
      {
        PopulatedFills(ctx, es[i].key);
        PopulatedFills(ctx, es[i].val);
      }
    case _ =>
  }

  /** Afterwards every reached property has a type name. */
  lemma {:induction false} PopulatedComplete(ctx: Context, p: Property)
    ensures Everywhere(Populated(ctx, p), HasTypeName)
    decreases p
  {
    match p
    case Struct(_, _, ch) =>
      forall i | 0 <= i < |ch| && ch[i].Some? ensures Everywhere(Populated(ctx, ch[i].value), HasTypeName) {
        PopulatedComplete(ctx, ch[i].value);
      }
    case Set(_, els, rem, _, _) =>
      forall i | 0 <= i < |els| && els[i].Some? ensures Everywhere(Populated(ctx, els[i].value), HasTypeName) {
        PopulatedComplete(ctx, els[i].value);
      }
      forall i | 0 <= i < |rem| && rem[i].Some? ensures Everywhere(Populated(ctx, rem[i].value), HasTypeName) {
        PopulatedComplete(ctx, rem[i].value);
      }
    case Array(_, els, _, _) =>
      forall i | 0 <= i < |els| && els[i].Some? ensures Everywhere(Populated(ctx, els[i].value), HasTypeName) {
        PopulatedComplete(ctx, els[i].value);
      }
    case Map(_, es, ktr, _, _) =>
      forall i | 0 <= i < |ktr| && ktr[i].Some? ensures Everywhere(Populated(ctx, ktr[i].value), HasTypeName) {
        PopulatedComplete(ctx, ktr[i].value);
      }
      forall i | 0 <= i < |es|
        ensures Everywhere(Populated(ctx, es[i].key), HasTypeName) && Everywhere(Populated(ctx, es[i].val), HasTypeName)
      {
        PopulatedComplete(ctx, es[i].key);
        PopulatedComplete(ctx, es[i].val);
      }
    case _ =>
  }

  /** Every type name the traversal attaches is one well-formed tree, so a tree whose
      type names were well-formed stays so. */
  lemma {:induction false} PopulatedWellFormed(ctx: Context, p: Property)
    requires Everywhere(p, TypeNameWellFormed)
    ensures Everywhere(Populated(ctx, p), TypeNameWellFormed)
    decreases p
  {
    match p
    case Struct(_, _, ch) =>
      forall i | 0 <= i < |ch| && ch[i].Some? ensures Everywhere(Populated(ctx, ch[i].value), TypeNameWellFormed) {
        PopulatedWellFormed(ctx, ch[i].value);
      }
    case Set(_, els, rem, _, _) =>
      forall i | 0 <= i < |els| && els[i].Some? ensures Everywhere(Populated(ctx, els[i].value), TypeNameWellFormed) {
        PopulatedWellFormed(ctx, els[i].value);
      }
      forall i | 0 <= i < |rem| && rem[i].Some? ensures Everywhere(Populated(ctx, rem[i].value), TypeNameWellFormed) {
        PopulatedWellFormed(ctx, rem[i].value);
      }
    case Array(_, els, _, _) =>
      forall i | 0 <= i < |els| && els[i].Some? ensures Everywhere(Populated(ctx, els[i].value), TypeNameWellFormed) {
        PopulatedWellFormed(ctx, els[i].value);
      }
    case Map(_, es, ktr, _, _) =>
      forall i | 0 <= i < |ktr| && ktr[i].Some? ensures Everywhere(Populated(ctx, ktr[i].value), TypeNameWellFormed) {
        PopulatedWellFormed(ctx, ktr[i].value);
      }
      forall i | 0 <= i < |es|
        ensures Everywhere(Populated(ctx, es[i].key), TypeNameWellFormed)
        ensures Everywhere(Populated(ctx, es[i].val), TypeNameWellFormed)
      {
        PopulatedWellFormed(ctx, es[i].key);
        PopulatedWellFormed(ctx, es[i].val);
      }
    case _ =>
  }

  /** A tree in which every reached property already has a type name is left exactly
      as it is, whatever the schema. */
  lemma {:induction false} CompleteUnchanged(ctx: Context, p: Property)
    requires Everywhere(p, HasTypeName)
    ensures Populated(ctx, p) == p
    decreases p
  {
    match p
    case Struct(h, st, ch) =>
      forall i | 0 <= i < |ch| && ch[i].Some? ensures Populated(ctx, ch[i].value) == ch[i].value {
        CompleteUnchanged(ctx, ch[i].value);
      }
      assert PopulatedSlots(ctx, ch, p) == ch;
    case Set(h, els, rem, at, ds) =>
      forall i | 0 <= i < |els| && els[i].Some? ensures Populated(ctx, els[i].value) == els[i].value {
        CompleteUnchanged(ctx, els[i].value);
      }
      forall i | 0 <= i < |rem| && rem[i].Some? ensures Populated(ctx, rem[i].value) == rem[i].value {
        CompleteUnchanged(ctx, rem[i].value);
      }
      assert PopulatedSlots(ctx, els, p) == els;
      assert PopulatedSlots(ctx, rem, p) == rem;
    case Array(h, els, at, ds) =>
      forall i | 0 <= i < |els| && els[i].Some? ensures Populated(ctx, els[i].value) == els[i].value {
        CompleteUnchanged(ctx, els[i].value);
      }
      assert PopulatedSlots(ctx, els, p) == els;
    case Map(h, es, ktr, kt, vt) =>
      forall i | 0 <= i < |ktr| && ktr[i].Some? ensures Populated(ctx, ktr[i].value) == ktr[i].value {
        CompleteUnchanged(ctx, ktr[i].value);
      }
      forall i | 0 <= i < |es| ensures Populated(ctx, es[i].key) == es[i].key && Populated(ctx, es[i].val) == es[i].val {
        CompleteUnchanged(ctx, es[i].key);
        CompleteUnchanged(ctx, es[i].val);
      }
      assert PopulatedSlots(ctx, ktr, p) == ktr;
      assert PopulatedEntries(ctx, es, p) == es;
    case _ =>
  }

  /** Running the traversal a second time, even under another schema, changes nothing. */
  lemma PopulateIdempotent(ctx: Context, ctx': Context, p: Property)
    ensures Populated(ctx', Populated(ctx, p)) == Populated(ctx, p)
  {
    PopulatedComplete(ctx, p);
    CompleteUnchanged(ctx', Populated(ctx, p));
  }

  /** `f` holds everywhere below the top-level properties of every normal export. */
  ghost predicate ExportsEverywhere(exports: seq<Export>, f: Header -> bool)
  {
    forall i, j ::
      (0 <= i < |exports| && exports[i].NormalExport? && 0 <= j < |exports[i].data| && exports[i].data[j].Some?)
      ==> Everywhere(exports[i].data[j].value, f)
  }

  /** After `Populate`, every property reached from a normal export has a type name. */
  lemma PopulatedExportsComplete(ctx: Context, exports: seq<Export>)
    ensures ExportsEverywhere(PopulatedExports(ctx, exports), HasTypeName)
  {
    var out := PopulatedExports(ctx, exports);
    forall i, j | 0 <= i < |out| && out[i].NormalExport? && 0 <= j < |out[i].data| && out[i].data[j].Some?
      ensures Everywhere(out[i].data[j].value, HasTypeName)
    {
      PopulatedComplete(ctx, exports[i].data[j].value);
    }
  }

  /** After `Populate`, every type name below a normal export is well-formed, provided
      the ones already there were. */
  lemma PopulatedExportsWellFormed(ctx: Context, exports: seq<Export>)
    requires ExportsEverywhere(exports, TypeNameWellFormed)
    ensures ExportsEverywhere(PopulatedExports(ctx, exports), TypeNameWellFormed)
  {
    var out := PopulatedExports(ctx, exports);
    forall i, j | 0 <= i < |out| && out[i].NormalExport? && 0 <= j < |out[i].data| && out[i].data[j].Some?
      ensures Everywhere(out[i].data[j].value, TypeNameWellFormed)
    {
      PopulatedWellFormed(ctx, exports[i].data[j].value);
    }
  }

  /** `Populate` run twice on the exports gives the same exports as run once. */
  lemma PopulatedExportsIdempotent(ctx: Context, ctx': Context, exports: seq<Export>)
    ensures PopulatedExports(ctx', PopulatedExports(ctx, exports)) == PopulatedExports(ctx, exports)
  {
    var once := PopulatedExports(ctx, exports);
    forall i | 0 <= i < |once| && once[i].NormalExport?
      ensures PopulatedData(ctx', once[i].data) == once[i].data
    {
      forall j | 0 <= j < |once[i].data| && once[i].data[j].Some?
        ensures Populated(ctx', once[i].data[j].value) == once[i].data[j].value
      {
        PopulateIdempotent(ctx, ctx', exports[i].data[j].value);
      }
    }
  }

  /** The root of every complete type name names the property's kind: containers
      carry one or two parameters; struct, enum and byte types carry one leaf; simple
      types are a single node. */
  lemma DescriptorRoot(ctx: Context, p: Property)
    ensures var r := BuildNodes(ctx, p);
      && OneTree(r)
      && (p.Set? ==> r[0] == TypeNode("SetProperty", 1))
      && (p.Array? ==> r[0] == TypeNode("ArrayProperty", 1))
      && (p.Map? ==> r[0] == TypeNode("MapProperty", 2))
      && (p.Struct? ==> |r| == 2 && r[0] == TypeNode(SafeRoot(p.hdr.propertyType.GetOr("StructProperty")), 1))
      && (p.RawStruct? ==> |r| == 2 && r[0] == TypeNode(SafeRoot(p.hdr.propertyType.GetOr("RawStructProperty")), 1))
      && (p.Enum? ==> |r| == 2 && r[0] == TypeNode("EnumProperty", 1))
      && (p.Byte? ==> |r| == 2 && r[0] == TypeNode("ByteProperty", 1))
      && ((p.Struct? || p.RawStruct? || p.Enum? || p.Byte?) ==> r[1].innerCount == 0)
      && (p.Simple? ==> r == [TypeNode(SafeRoot(p.hdr.propertyType.GetOr("None")), 0)])
  {
  }

  /** The parameter of an array or set's complete type name is its element type. */
  lemma ArrayParameter(ctx: Context, p: Property)
    requires p.Set? || p.Array?
    ensures BuildNodes(ctx, p)[1..] == GetArrayElementNodes(ctx, p)
  {
    var root := if p.Set? then "SetProperty" else "ArrayProperty";
    assert BuildNodes(ctx, p) == BuildArrayNodes(ctx, p, root);
  }

  /** An array or set whose first element is present takes that element's complete
      type name as its parameter; its own tags play no part. */
  lemma ArrayElementFromFirst(ctx: Context, p: Property, at: Option<FName>, ds: Option<FName>)
    requires (p.Set? || p.Array?) && |p.elements| > 0 && p.elements[0].Some?
    ensures BuildNodes(ctx, p)[1..] == BuildNodes(ctx, p.elements[0].value)
    ensures BuildNodes(ctx, p.(arrayType := at, dummyStructType := ds)) == BuildNodes(ctx, p)
  {
    ArrayParameter(ctx, p);
    var p' := p.(arrayType := at, dummyStructType := ds);
    assert GetArrayElementNodes(ctx, p') == GetArrayElementNodes(ctx, p);
  }

  /** Without a first element, a schema entry for the array or set decides the element
      type, whatever its tags say. */
  lemma ArrayElementFromSchema(ctx: Context, p: Property, at: Option<FName>, ds: Option<FName>)
    requires (p.Set? || p.Array?) && !(|p.elements| > 0 && p.elements[0].Some?)
    requires Lookup(ctx, p).Some? && Lookup(ctx, p).value.UsmapArray?
    ensures BuildNodes(ctx, p)[1..] == BuildNodesFromUsmap(Lookup(ctx, p).value.inner)
    ensures BuildNodes(ctx, p.(arrayType := at, dummyStructType := ds)) == BuildNodes(ctx, p)
  {
    ArrayParameter(ctx, p);
    var p' := p.(arrayType := at, dummyStructType := ds);
    assert Lookup(ctx, p') == Lookup(ctx, p);
    assert GetArrayElementNodes(ctx, p') == GetArrayElementNodes(ctx, p);
  }

  /** Without a first element or a schema entry, the element type comes from the tags:
      a missing tag or a struct tag gives a struct type (named by the dummy struct, then
      the override table, then the schema's struct entry, then "Generic"), any other tag
      the simple type it names. */
  lemma ArrayElementFromTags(ctx: Context, p: Property)
    requires (p.Set? || p.Array?) && !(|p.elements| > 0 && p.elements[0].Some?)
    requires !(Lookup(ctx, p).Some? && Lookup(ctx, p).value.UsmapArray?)
    ensures var e := BuildNodes(ctx, p)[1..];
      && (p.arrayType.None? ==> e == BuildStructNodes(ctx, "StructProperty", None, p))
      && (p.arrayType.Some? && NameText(p.arrayType.value) == Some("StructProperty") ==>
            e == BuildStructNodes(ctx, "StructProperty", ArrayStructType(ctx, p), p))
      && (p.arrayType.Some? && NameText(p.arrayType.value) != Some("StructProperty") ==>
            e == [TypeNode(SafeRoot(NameText(p.arrayType.value).GetOr("None")), 0)])
  {
    ArrayParameter(ctx, p);
  }

  /** The struct type of an array of structs: the dummy struct's type wins over the
      override table, which is consulted only by the array's name. */
  lemma ArrayStructTypePriority(ctx: Context, p: Property)
    requires p.Set? || p.Array?
    ensures p.dummyStructType.Some? ==> ArrayStructType(ctx, p) == p.dummyStructType
    ensures p.dummyStructType.None? ==>
      ArrayStructType(ctx, p) ==
        if NameText(p.hdr.name).Some? && NameText(p.hdr.name).value in ctx.arrayStructTypeOverride
        then Some(AssetName(ctx.arrayStructTypeOverride[NameText(p.hdr.name).value])) else None
  {
  }

  /** A struct with a recorded type other than "Generic" is named by it (or "Generic"
      if that name is unusable) without consulting any schema; a missing or "Generic"
      type takes the schema's struct entry, else "Generic". */
  lemma StructLeaf(ctx: Context, ctx': Context, p: Property)
    requires p.Struct? || p.RawStruct?
    ensures p.structType.Some? && NameText(p.structType.value) != Some("Generic") ==>
      BuildNodes(ctx, p)[1].name == EnsureName(p.structType, "Generic") && BuildNodes(ctx', p) == BuildNodes(ctx, p)
    ensures p.structType.None? || NameText(p.structType.value) == Some("Generic") ==>
      BuildNodes(ctx, p)[1].name == match Lookup(ctx, p) case Some(UsmapStruct(s)) => s case _ => "Generic"
  {
  }

  /** An enum with an enum type is named by it (or "None" if that name is unusable)
      without consulting any schema; without one, the schema's enum entry names it,
      else "None". */
  lemma EnumLeaf(ctx: Context, ctx': Context, p: Property)
    requires p.Enum?
    ensures p.enumType.Some? ==>
      BuildNodes(ctx, p)[1].name == EnsureName(p.enumType, "None") && BuildNodes(ctx', p) == BuildNodes(ctx, p)
    ensures p.enumType.None? ==>
      BuildNodes(ctx, p)[1].name == match Lookup(ctx, p) case Some(UsmapEnum(e)) => e case _ => "None"
  {
  }

  /** A plain byte never consults the schema and, without an enum type, is "None"; any
      byte with an enum type is named by it; an enum byte without one takes the schema's
      enum entry. */
  lemma ByteLeaf(ctx: Context, ctx': Context, p: Property)
    requires p.Byte?
    ensures p.byteKind == PlainByte ==> BuildNodes(ctx', p) == BuildNodes(ctx, p)
    ensures p.byteKind == PlainByte && p.enumType.None? ==> BuildNodes(ctx, p)[1].name == "None"
    ensures p.enumType.Some? ==>
      BuildNodes(ctx, p)[1].name == EnsureName(p.enumType, "None") && BuildNodes(ctx', p) == BuildNodes(ctx, p)
    ensures p.byteKind == EnumByte && p.enumType.None? ==>
      BuildNodes(ctx, p)[1].name == match Lookup(ctx, p) case Some(UsmapEnum(e)) => e case _ => "None"
  {
  }

  /** A map's complete type name is its root followed by exactly one key type and one
      value type, and this split is the only one: for a non-empty map they are the
      first key's and the first value's own type names. */
  lemma MapFromFirstEntry(ctx: Context, p: Property, k: seq<TypeNode>, v: seq<TypeNode>)
    requires p.Map? && |p.entries| > 0
    requires OneTree(k) && OneTree(v) && BuildNodes(ctx, p) == [TypeNode("MapProperty", 2)] + k + v
    ensures k == BuildNodes(ctx, p.entries[0].key) && v == BuildNodes(ctx, p.entries[0].val)
  {
    var r := BuildNodes(ctx, p);
    assert r[1..] == k + v;
    FitsSplitUnique(k, v, BuildNodes(ctx, p.entries[0].key), BuildNodes(ctx, p.entries[0].val));
  }

  /** An empty map without a schema entry whose key or value tag is missing gets the same
      struct type for both halves, named after the map's own schema struct entry, else
      `Generic`. */
  lemma MapMissingTagFallback(ctx: Context, p: Property)
    requires p.Map? && |p.entries| == 0 && !(Lookup(ctx, p).Some? && Lookup(ctx, p).value.UsmapMap?)
    requires p.keyType.None? || p.valueType.None?
    ensures var r := BuildNodes(ctx, p);
      && |r| == 5 && r[1] == r[3] == TypeNode("StructProperty", 1) && r[2] == r[4] && r[2].innerCount == 0
      && r[2].name == match Lookup(ctx, p) case Some(UsmapStruct(s)) => s case _ => "Generic"
  {
  }

  /** A non-empty map's complete type name is its root followed by the first key's and
      then the first value's own type names. */
  lemma MapFromFirstEntryNodes(ctx: Context, p: Property)
    requires p.Map? && |p.entries| > 0
    ensures BuildNodes(ctx, p)
      == [TypeNode("MapProperty", 2)] + BuildNodes(ctx, p.entries[0].key) + BuildNodes(ctx, p.entries[0].val)
  {
  }

  /** An empty map with a schema map entry takes its key and value types from that
      entry, whatever its tags say. */
  lemma MapFromSchema(ctx: Context, p: Property, k: Option<UsmapData>, v: Option<UsmapData>)
    requires p.Map? && |p.entries| == 0 && Lookup(ctx, p) == Some(UsmapMap(k, v))
    ensures BuildNodes(ctx, p) == [TypeNode("MapProperty", 2)] + BuildNodesFromUsmap(k) + BuildNodesFromUsmap(v)
  {
  }

  /** An empty map without a schema map entry whose key and value tags are both present
      is a map of those two simple types. */
  lemma MapFromTags(ctx: Context, p: Property)
    requires p.Map? && |p.entries| == 0 && !(Lookup(ctx, p).Some? && Lookup(ctx, p).value.UsmapMap?)
    requires p.keyType.Some? && p.valueType.Some?
    ensures BuildNodes(ctx, p) ==
      [ TypeNode("MapProperty", 2),
        TypeNode(SafeRoot(NameText(p.keyType.value).GetOr("None")), 0),
        TypeNode(SafeRoot(NameText(p.valueType.value).GetOr("None")), 0) ]
  {
  }

  /** A non-empty array whose first element is an enum of type EMyEnum is described as
      an array of that enum, whatever the schema says. */
  lemma EnumArrayScenario(ctx: Context, h: Header, eh: Header, rest: seq<Option<Property>>, at: Option<FName>, ds: Option<FName>)
    ensures
      var first := Enum(eh, Some(AssetName("EMyEnum")), None, None);
      BuildNodes(ctx, Array(h, [Some(first)] + rest, at, ds))
        == [TypeNode("ArrayProperty", 1), TypeNode("EnumProperty", 1), TypeNode("EMyEnum", 0)]
  {
    var first := Enum(eh, Some(AssetName("EMyEnum")), None, None);
    var a := Array(h, [Some(first)] + rest, at, ds);
    ArrayParameter(ctx, a);
    assert GetArrayElementNodes(ctx, a) == BuildNodes(ctx, first);
    assert BuildNodes(ctx, first) == [TypeNode("EnumProperty", 1), TypeNode("EMyEnum", 0)];
  }
}
