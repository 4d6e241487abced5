# PadSM2 core in Dafny

PadSM2 prepares static-mesh assets of one Unreal Engine game for another. This
project models its three transformations over parsed asset data and proves what
each one guarantees.

- **Complete type names** (`PropertyTypeNameFixer`). Newer asset revisions store a
  complete type name with every property tag. It is a flat, pre-order list of
  `(name, innerCount)` nodes. `Populate` walks every property below each normal
  export and gives every property that lacks a complete type name the one built from:
  - its own kind;
  - its first element or entry;
  - the usmap schema;
  - the legacy type tags;
  - as a last resort, the placeholders `Generic` and `None`.

  Modules: `TypeDescriptors` (the node lists and when they form one tree), `AssetData`
  (names, the property tree, the schema, exports and the asset object),
  `PropertyTypeNameFixer` (builders and the traversal) and
  `PropertyTypeNameFixerProofs` (what the traversal guarantees).
- **Mesh padding** (`MeshPadder`). The last static mesh export of a package is found.
  Its sections are gathered LOD by LOD. The four bytes `01 00 00 00` are inserted into
  the payload (`.uexp`) at each section's recorded offset, shifted by the pads already
  inserted. The header (`.uasset`) is then patched. Three kinds of 8-byte
  little-endian fields are rewritten:
  - the mesh export's serial size;
  - the serial offset of every later export;
  - the bulk data start offset, only when it is positive.

  Module `Bytes` holds the byte type, the 32- and 64-bit casts and the 8-byte
  encoding.
- **Conversion to the target game** (`MeshConverter`). The asset is switched to the
  target schema. A `CollisionResponses` struct listing five collision channels and
  their responses is built. It replaces slot 1 of the `DefaultInstance` struct of the
  first `BodySetup` export.

The property tree is a value (`AssetData.Property`). The asset is a class whose
`exports` and `mappings` fields the methods reassign. Each method that changes state
is proved against a specification function: `Populated`, `PadSpec` or `ConvertSpec`.
Lemmas about those functions state the guarantees.

Points a reader might not expect:

- A name counts as usable when it has text. Empty text also counts. So `EnsureName`
  can return an empty string, and only the root of a type name is replaced by `None`
  when empty.
- For an array of structs, the struct type recorded in the array's dummy struct wins.
  The asset's override table for the array's name is used only when the dummy struct
  has no type.
- An array with neither elements, a schema entry nor a type tag gets a struct element
  type. That type is looked up in the schema before falling back to `Generic`. An
  array whose tag names another type gets that simple type.
- Padding and conversion fail in more ways than "not found":
  - an insertion point or a header field outside its buffer;
  - a `BodySetup` export that is not a normal export;
  - a null property, or a name without text, met while searching for
    `DefaultInstance`;
  - a `DefaultInstance` that is not a struct or has fewer than two children.

  Each is a distinct error value here.

## Model

| member | source | states |
|---|---|---|
| TypeDescriptors.FitsConcat | PadSM2/PropertyTypeNameFixer.cs:151-181 | a key type name followed by a value type name forms the two parameters a map node needs |
| TypeDescriptors.FitsSplitUnique | PadSM2/PropertyTypeNameFixer.cs:153-160 | two complete type names laid end to end split back in exactly one way |
| PropertyTypeNameFixer.Lookup | PadSM2/PropertyTypeNameFixer.cs:185-191 | a schema entry is found exactly when the asset has a schema holding the property's name and ancestry, and the entry found is the schema's entry for that name and ancestry |
| PropertyTypeNameFixer.EnsureName | PadSM2/PropertyTypeNameFixer.cs:288-295 | a present dummy name, or a present name bound to an asset with text, yields its own text; anything else yields the fallback |
| PropertyTypeNameFixer.BuildNodeList | PadSM2/PropertyTypeNameFixer.cs:267-277 | root first (an empty root becomes `None`), then the children unchanged; one tree exactly when the children fill the root's count |
| PropertyTypeNameFixer.BuildSimpleNodes | PadSM2/PropertyTypeNameFixer.cs:262-265 | exactly one parameterless node named by the root, or `None` when the root is empty; one tree |
| PropertyTypeNameFixer.MapNodeList | PadSM2/PropertyTypeNameFixer.cs:159 | a `MapProperty` root with two parameters followed by the key and then the value type; one tree |
| PropertyTypeNameFixer.BuildStructNodes | PadSM2/PropertyTypeNameFixer.cs:183-196 | exactly a root with one parameter and one leaf; one tree. The leaf is named after the struct type (via `EnsureName`) when it is present and not `Generic`; otherwise after the schema's struct entry for the property, else `Generic`. This holds at every call site: struct values, arrays, sets and the map fallback |
| PropertyTypeNameFixer.BuildEnumNodes | PadSM2/PropertyTypeNameFixer.cs:198-212 | `EnumProperty` with one parameter and one leaf; one tree |
| PropertyTypeNameFixer.BuildByteNodes | PadSM2/PropertyTypeNameFixer.cs:214-232 | `ByteProperty` with one parameter and one leaf; one tree |
| PropertyTypeNameFixer.BuildNodesFromUsmap | PadSM2/PropertyTypeNameFixer.cs:234-260 | every schema entry, nested to any depth, gives one well-formed tree |
| PropertyTypeNameFixer.BuildNodes | PadSM2/PropertyTypeNameFixer.cs:90-111 | every property of every kind gets exactly one well-formed tree |
| PropertyTypeNameFixer.BuildArrayNodes | PadSM2/PropertyTypeNameFixer.cs:113-117 | root `ArrayProperty` or `SetProperty` with one parameter; one tree |
| PropertyTypeNameFixer.GetArrayElementNodes | PadSM2/PropertyTypeNameFixer.cs:119-149 | the element type is one well-formed tree on every fallback path |
| PropertyTypeNameFixer.BuildMapNodes | PadSM2/PropertyTypeNameFixer.cs:151-181 | root `MapProperty` with two parameters; one tree on every fallback path |
| PropertyTypeNameFixer.PopulateProperty | PadSM2/PropertyTypeNameFixer.cs:34-82 | the result is the property with every missing type name below it filled, as `Populated` defines |
| PropertyTypeNameFixer.PopulateSlots | PadSM2/PropertyTypeNameFixer.cs:43-71 | each property of a child list is populated; null entries stay null |
| PropertyTypeNameFixer.PopulateEntries | PadSM2/PropertyTypeNameFixer.cs:72-79 | every key and every value of a map is populated |
| PropertyTypeNameFixer.PopulateData | PadSM2/PropertyTypeNameFixer.cs:25-28 | each top-level property of an export is populated |
| PropertyTypeNameFixer.Populate | PadSM2/PropertyTypeNameFixer.cs:12-32 | with no asset, unversioned properties or a version below 1012 nothing changes; otherwise only the normal exports' properties change, to `PopulatedExports`; no other asset field changes |
| PropertyTypeNameFixerProofs.PopulatedFills | PadSM2/PropertyTypeNameFixer.cs:38-41 | only missing type names are filled: present ones, all other fields and the tree's shape are kept |
| PropertyTypeNameFixerProofs.PopulatedComplete | PadSM2/PropertyTypeNameFixer.cs:34-82 | afterwards every reached property (struct children, set elements and removals, array elements, map removals, keys and values) has a type name |
| PropertyTypeNameFixerProofs.PopulatedWellFormed | PadSM2/PropertyTypeNameFixer.cs:84-88 | every type name attached is one well-formed tree, so well-formed trees stay well-formed |
| PropertyTypeNameFixerProofs.CompleteUnchanged | PadSM2/PropertyTypeNameFixer.cs:38-41 | a tree whose properties all have type names is left exactly as it is |
| PropertyTypeNameFixerProofs.PopulateIdempotent | PadSM2/PropertyTypeNameFixer.cs:38-41 | a second traversal, under any schema, changes nothing |
| PropertyTypeNameFixerProofs.PopulatedExportsComplete | PadSM2/PropertyTypeNameFixer.cs:20-31 | after `Populate` every property below a normal export has a type name, for every input |
| PropertyTypeNameFixerProofs.PopulatedExportsWellFormed | PadSM2/PropertyTypeNameFixer.cs:20-31 | after `Populate` every type name below a normal export is well-formed, provided the ones already there were |
| PropertyTypeNameFixerProofs.PopulatedExportsIdempotent | PadSM2/PropertyTypeNameFixer.cs:20-31 | populating the exports twice gives the same exports as once |
| PropertyTypeNameFixerProofs.DescriptorRoot | PadSM2/PropertyTypeNameFixer.cs:90-111 | the root and length by kind: set, array and map roots with counts 1, 1 and 2; struct, enum and byte roots with one leaf of count 0; simple types a single node |
| PropertyTypeNameFixerProofs.ArrayElementFromFirst | PadSM2/PropertyTypeNameFixer.cs:121-124 | a present first element decides the element type, whatever the array's tags |
| PropertyTypeNameFixerProofs.ArrayElementFromSchema | PadSM2/PropertyTypeNameFixer.cs:126-129 | otherwise a schema array entry decides it, whatever the tags |
| PropertyTypeNameFixerProofs.ArrayElementFromTags | PadSM2/PropertyTypeNameFixer.cs:131-148 | otherwise a missing tag gives a struct, a struct tag a struct of the recorded type, any other tag that simple type |
| PropertyTypeNameFixerProofs.ArrayStructTypePriority | PadSM2/PropertyTypeNameFixer.cs:139-144 | the dummy struct's type wins; the override table is consulted by array name only without it |
| PropertyTypeNameFixerProofs.StructLeaf | PadSM2/PropertyTypeNameFixer.cs:183-196 | a present struct type other than `Generic` names the leaf (an unusable one gives `Generic`) with no schema involved; a missing or `Generic` type takes the schema's struct entry, else `Generic` |
| PropertyTypeNameFixerProofs.EnumLeaf | PadSM2/PropertyTypeNameFixer.cs:198-212 | a present enum type names the leaf with no schema involved; a missing one takes the schema's enum entry, else `None` |
| PropertyTypeNameFixerProofs.ByteLeaf | PadSM2/PropertyTypeNameFixer.cs:214-232 | a plain byte never consults the schema and without an enum type is `None`; any byte with an enum type is named by it (`None` if unusable) with no schema involved; an enum byte without one takes the schema's enum entry, else `None` |
| PropertyTypeNameFixerProofs.MapFromFirstEntry | PadSM2/PropertyTypeNameFixer.cs:153-160 | for a non-empty map the only way to read the type name as root, key, value gives the first key's and the first value's types |
| PropertyTypeNameFixerProofs.MapFromFirstEntryNodes | PadSM2/PropertyTypeNameFixer.cs:153-159 | a non-empty map's type name is `MapProperty` with two parameters, then the first key's complete type name, then the first value's |
| PropertyTypeNameFixerProofs.MapFromSchema | PadSM2/PropertyTypeNameFixer.cs:162-167 | an empty map with a schema map entry is that entry's key type followed by its value type, whatever its tags |
| PropertyTypeNameFixerProofs.MapFromTags | PadSM2/PropertyTypeNameFixer.cs:169-180 | an empty map without a schema map entry and with both tags present is a map of those two simple types, each `None` when it has no text |
| PropertyTypeNameFixerProofs.MapMissingTagFallback | PadSM2/PropertyTypeNameFixer.cs:169-176 | an empty map without schema entry and with a missing key or value tag gets two identical struct halves, each named after the map's own schema struct entry, else `Generic` |
| PropertyTypeNameFixerProofs.EnumArrayScenario | PadSM2/PropertyTypeNameFixer.cs:119-124 | an array whose first element is an `EMyEnum` enum is `ArrayProperty(1) EnumProperty(1) EMyEnum(0)` under any schema |
| Bytes.Int32 | PadSM2/MeshPadder.cs:94 | the `(int)` cast always gives a 32-bit value and keeps every value already in that range |
| Bytes.Int32Wraps | PadSM2/MeshPadder.cs:94 | the cast of an out-of-range value differs from it by a multiple of 2^32, and is the only value in the 32-bit range that does |
| Bytes.EncodeLong | PadSM2/MeshPadder.cs:19 | `BitConverter.GetBytes(long)` gives exactly 8 bytes |
| Bytes.DecodeEncodeLong | PadSM2/MeshPadder.cs:19-24 | the 8 bytes written for a value read back as that value, wrapped to 64 bits |
| Bytes.EncodeDecodeLong | PadSM2/MeshPadder.cs:19-24 | any 8 bytes are the encoding of the value they hold |
| Bytes.EncodeLongInjective | PadSM2/MeshPadder.cs:19-24 | two values are written identically exactly when they agree as 64-bit values |
| MeshPadder.WriteLongSpec | PadSM2/MeshPadder.cs:17-30 | the 8 bytes at the offset become the encoding of the value; length and every other byte unchanged |
| MeshPadder.WriteLong | PadSM2/MeshPadder.cs:17-30 | the array afterwards is `WriteLongSpec` of its old contents |
| MeshPadder.LastStaticMesh | PadSM2/MeshPadder.cs:58-75 | the chosen export is a static mesh and no later export is; none exactly when no export is one |
| MeshPadder.FindStaticMesh | PadSM2/MeshPadder.cs:58-75 | the scan ends on the last static mesh export, or -1 |
| MeshPadder.FlattenConcat | PadSM2/MeshPadder.cs:78-83 | gathering LODs distributes over concatenation, so each LOD's sections appear in order, LOD after LOD |
| MeshPadder.FlattenSingle | PadSM2/MeshPadder.cs:78-83 | a single LOD's sections are gathered as they are |
| MeshPadder.CollectSections | PadSM2/MeshPadder.cs:78-83 | the gathered list is the LODs' sections in order |
| MeshPadder.InsertionPointNoWrap | PadSM2/MeshPadder.cs:94-97 | the shifted insertion point is always an `int`, and is the recorded offset plus 4 per earlier section whenever that sum fits in an `int` |
| MeshPadder.InsertPad | PadSM2/MeshPadder.cs:99 | an insertion succeeds exactly at indices in `[0, length]`, grows the buffer by 4, puts the pad there and keeps the bytes before and after it |
| MeshPadder.PadAll | PadSM2/MeshPadder.cs:90-100 | a successful padding grows the payload by 4 bytes per section |
| MeshPadder.PadAllPrefixFails | PadSM2/MeshPadder.cs:90-100 | one failing insertion makes the whole padding fail |
| MeshPadder.UnpadPadAll | PadSM2/MeshPadder.cs:86-100 | deleting the four bytes of each section in reverse order restores the input payload exactly |
| MeshPadder.PadsInPlace | PadSM2/MeshPadder.cs:90-100 | for in-range, non-decreasing offsets every insertion succeeds and section i's pad is at its offset plus 4*i in the output |
| MeshPadder.PadPointsIncrease | PadSM2/MeshPadder.cs:90-99 | for well-placed offsets the shifted insertion points strictly increase with the section index, so no pad lands inside an earlier one |
| MeshPadder.ThreeSections | PadSM2/MeshPadder.cs:90-100 | offsets 100, 250 and 400 put pads at 100, 254 and 408 and grow the payload by 12 |
| MeshPadder.PadPayload | PadSM2/MeshPadder.cs:88-100 | the insertion loop computes `PadAll`, failing as soon as one insertion point is outside the buffer |
| MeshPadder.HeaderWrites | PadSM2/MeshPadder.cs:102-127 | one write per later export plus the mesh's, plus one for a positive bulk data offset |
| MeshPadder.LaterWrites | PadSM2/MeshPadder.cs:113-120 | each later export's serial offset plus the increase is written 8 bytes after its serial-size field |
| MeshPadder.ApplyWrites | PadSM2/MeshPadder.cs:109-127 | patching never changes the header's length |
| MeshPadder.ApplyWritesSucceeds | PadSM2/MeshPadder.cs:111-127 | patching succeeds exactly when every field lies inside the header |
| MeshPadder.ApplyWritesEffect | PadSM2/MeshPadder.cs:111-127 | after non-overlapping writes each field holds its value and every other byte is unchanged |
| MeshPadder.ApplyWritesIdentity | PadSM2/MeshPadder.cs:88-129 | writing the values the fields already hold changes nothing |
| MeshPadder.HeaderWritesFields | PadSM2/MeshPadder.cs:102-127 | the mesh's serial size first, then each later export's serial offset in index order, then the bulk data offset when positive |
| MeshPadder.PatchHeader | PadSM2/MeshPadder.cs:109-127 | the writes are performed in order on a copy of the header, as `ApplyWrites` defines |
| MeshPadder.PadSpec | PadSM2/MeshPadder.cs:53-130 | fails with `NoStaticMesh` exactly when no export is a static mesh; keeps both names and the header length |
| MeshPadder.PadSpecShape | PadSM2/MeshPadder.cs:86-129 | after success the payload is 4 bytes per section longer and unpads to the input; the header length is kept |
| MeshPadder.PatchEffect | PadSM2/MeshPadder.cs:102-127 | with non-overlapping fields, the serial size, every later serial offset and a positive bulk offset each hold the old value plus the increase |
| MeshPadder.PatchUntouched | PadSM2/MeshPadder.cs:102-127 | with non-overlapping fields, every header byte outside the rewritten fields is unchanged |
| MeshPadder.PadSpecHeader | PadSM2/MeshPadder.cs:109-129 | the padded header is the patch of the original header |
| MeshPadder.PadSpecFields | PadSM2/MeshPadder.cs:102-127 | with non-overlapping fields, the padded header holds the mesh's serial size, every later export's serial offset and a positive bulk data offset grown by 4 bytes per section |
| MeshPadder.PadSpecUntouched | PadSM2/MeshPadder.cs:102-127 | with non-overlapping fields, every padded-header byte outside the rewritten fields is the original byte |
| MeshPadder.PadSpecPads | PadSM2/MeshPadder.cs:86-99 | well-placed offsets never fail and every pad sits at its section's offset plus 4*i |
| MeshPadder.PadSpecNoSections | PadSM2/MeshPadder.cs:88-129 | with no sections, and header fields holding the parsed values, both buffers come back byte for byte |
| MeshPadder.PadStaticMesh | PadSM2/MeshPadder.cs:53-130 | the method computes `PadSpec` |
| MeshConverter.Decimal | PadSM2/MeshConverter.cs:36 | the index's name is a non-empty string of digits without a leading zero |
| MeshConverter.DecimalRoundTrip | PadSM2/MeshConverter.cs:36 | the index can be read back from its name |
| MeshConverter.ResponseChannel | PadSM2/MeshConverter.cs:34-53 | a struct named by the decimal index with exactly two children |
| MeshConverter.ReadChannelRoundTrip | PadSM2/MeshConverter.cs:34-53 | the channel struct reads back as its index, channel and response: a `Channel` child tagged `NameProperty` and a `Response` child tagged `EnumProperty`, of enum type `ECollisionResponse` over `ByteProperty`, under a `ResponseChannel` struct |
| MeshConverter.ResponseArray | PadSM2/MeshConverter.cs:67-76 | one element per table entry, with no array type and no dummy struct |
| MeshConverter.CollisionResponses | PadSM2/MeshConverter.cs:65-78 | exactly one child, the response array |
| MeshConverter.ReadResponsesRoundTrip | PadSM2/MeshConverter.cs:65-78 | the built struct reads back as its table: channels, responses and positions, in order |
| MeshConverter.BuiltTypeNames | PadSM2/MeshConverter.cs:65-78 | under any schema the built struct's type is `CollisionResponse`, the array's is an array of `ResponseChannel` structs, each channel's a `ResponseChannel` struct |
| MeshConverter.FindBodySetup | PadSM2/MeshConverter.cs:80 | the first export named `BodySetup`; none exactly when no export has that name |
| MeshConverter.FindDefaultInstance | PadSM2/MeshConverter.cs:81 | the first property named `DefaultInstance`, with every property before it present and named; not found exactly when all are present, named and not it |
| MeshConverter.FindDefaultInstanceFinds | PadSM2/MeshConverter.cs:81 | a `DefaultInstance` property reached past present, named properties only is always found, at or before its index |
| MeshConverter.ConvertSpec | PadSM2/MeshConverter.cs:80-82 | fails with `NoBodySetup` exactly when no export is named `BodySetup`; success keeps the number of exports |
| MeshConverter.ConvertReplacesOnlySlot | PadSM2/MeshConverter.cs:80-82 | success changes only slot 1 of `DefaultInstance`, to the collision responses; every other export, property and slot, the list lengths and the struct's header and type are kept |
| MeshConverter.ConvertErrors | PadSM2/MeshConverter.cs:80-82 | a non-normal `BodySetup`, a failed property search, a non-struct `DefaultInstance` and fewer than two children each give their own error, and nothing else fails |
| MeshConverter.ConvertToAugusta | PadSM2/MeshConverter.cs:56-85 | the asset's schema becomes the target schema; its exports become `ConvertSpec`'s on success and stay as they were on failure; no other field changes |

## Left out

- Parsing and writing of assets, packages and usmap files, with the embedded
  resources they come from. The parsed package and the schemas are inputs. Their
  agreement with the byte buffers is assumed.
- Program.cs (argument handling, file reads and writes, backups) and Util.cs
  (embedded resources) are not part of this model.
- `ResolveAncestries`: each property's ancestry is given as already resolved.
- The asset's name table. `EnsureName`, `FName.FromString`, `FName.DefineDummy` and
  `new FName(asset, …)` give names their text, but names are not added to the table.
- Object identity. The property tree is a value, so one property object reachable
  twice is not modelled. The source fills such a property once and the second visit
  finds it complete. Null property lists are modelled as empty lists, which every
  property-tree operation treats the same.
- Map keys and values are never null in the model. The parser never produces null
  ones, and a null first value would make the source throw.
- MeshPadder.PadSpec: a static mesh without render data, or a LOD whose section list is null,
  makes the source throw while collecting sections. The model cannot represent
  either input: a mesh always has a list of LODs, and each LOD a list of sections.
- `WriteLong`'s big-endian branch. Only little-endian machines are modelled.
- PatchHeader: performs the precomputed list of header writes in one loop. The source
  writes the mesh field, then loops over later exports, then writes the bulk field.
  The writes and their order are the same.
- PadStaticMesh: the padded sections' count times 4 is computed without 32-bit
  overflow. Such an overflow needs more than 500 million sections.
- MeshPadder.PadsInPlace: proved only for offsets inside the payload, in
  non-decreasing order, with a padded payload below 2^31 bytes. The source makes no
  promise for other offsets.
- MeshPadder.PatchEffect: states where each field ends up only when the rewritten
  fields do not overlap. With overlapping fields the later write wins.
- MeshPadder.PatchUntouched: holds under the same non-overlap condition as `PatchEffect`.
- MeshPadder.PadSpecFields: holds under the same non-overlap condition as `PatchEffect`.
- MeshPadder.PadSpecUntouched: holds under the same non-overlap condition as `PatchEffect`.
- Mesh and converter exports carry their object name as text. A name without text
  would make the source throw.
