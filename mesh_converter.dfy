/**
 * The construction part of converting a mesh for the target game: the asset is
 * switched to the target schema, a `CollisionResponses` struct listing five collision
 * channels and their responses is built, and it replaces slot 1 of the
 * `DefaultInstance` struct of the first `BodySetup` export.
 */
module MeshConverter {
  import opened Wrappers
  import opened TypeDescriptors
  import opened AssetData
  import opened PropertyTypeNameFixer

  // ---------------------------------------------------------------------------------
  // Decimal names

  function Digit(d: nat): (c: char)
    requires d < 10
    ensures '0' <= c <= '9' && (c as int) - ('0' as int) == d
  {
    (('0' as int) + d) as char
  }

  predicate IsDigits(s: string)
  {
    |s| > 0 && forall i :: 0 <= i < |s| ==> '0' <= s[i] <= '9'
  }

  /** `int.ToString()` of a non-negative number. */
  function Decimal(n: nat): (r: string)
    ensures IsDigits(r)
    ensures r[0] != '0' || n == 0
    decreases n
  {
    if n < 10 then [Digit(n)] else Decimal(n / 10) + [Digit(n % 10)]
  }

  /** The number a string of digits spells. */
  function DecimalValue(s: string): nat
    requires IsDigits(s)
    decreases |s|
  {
    var last := (s[|s| - 1] as int) - ('0' as int);
    if |s| == 1 then last else DecimalValue(s[..|s| - 1]) * 10 + last
  }

  lemma {:induction false} DecimalRoundTrip(n: nat)
    ensures DecimalValue(Decimal(n)) == n
    decreases n
  {
    if n >= 10 {
      DecimalRoundTrip(n / 10);
      var s := Decimal(n);
      assert s[..|s| - 1] == Decimal(n / 10);
    }
  }

  // ---------------------------------------------------------------------------------
  // The collision responses

  /** The header of a property created by the converter: no complete type name and an
      empty ancestry. */
  function NewHeader(name: FName, propertyType: string): Header
  {
    Header(name, Some(propertyType), None, [])
  }

  /** Channel struct `index`: a struct of type `ResponseChannel` named by the decimal
      string of its index, holding the channel name and the response as an enum of type
      `ECollisionResponse` over bytes. */
  function ResponseChannel(index: nat, channel: string, response: string): (p: Property)
    ensures p.Struct? && NameText(p.hdr.name) == Some(Decimal(index)) && |p.children| == 2
  {
    Struct(NewHeader(Dummy(Decimal(index)), "StructProperty"), Some(AssetName("ResponseChannel")),
      [ Some(Simple(NewHeader(AssetName("Channel"), "NameProperty"), NameValue(AssetName(channel)))),
        Some(Enum(NewHeader(AssetName("Response"), "EnumProperty"), Some(AssetName("ECollisionResponse")),
                  Some(AssetName("ByteProperty")), Some(AssetName(response)))) ])
  }

  /** The channels the target game expects, with their responses, in order. */
  const ResponseTable: seq<(string, string)> := [
    ("SteeringAvoidance", "ECR_Block"),
    ("Attack", "ECR_Block"),
    ("Interaction", "ECR_Block"),
    ("BuildingValidity", "ECR_Overlap"),
    ("BuildingPlacement", "ECR_Overlap")
  ]

  /** The array of channel structs for `table`, entry `k` named `k`. */
  function ResponseArray(table: seq<(string, string)>): (p: Property)
    ensures p.Array? && |p.elements| == |table| && p.arrayType.None? && p.dummyStructType.None?
  {
    Array(NewHeader(AssetName("ResponseArray"), "ArrayProperty"),
      seq(|table|, k requires 0 <= k < |table| => Some(ResponseChannel(k, table[k].0, table[k].1))),
      None, None)
  }

  /** The `CollisionResponses` struct of type `CollisionResponse` whose one child is the
      response array. */
  function CollisionResponses(table: seq<(string, string)>): (p: Property)
    ensures p.Struct? && |p.children| == 1 && p.children[0] == Some(ResponseArray(table))
  {
    Struct(NewHeader(AssetName("CollisionResponses"), "StructProperty"), Some(AssetName("CollisionResponse")),
      [Some(ResponseArray(table))])
  }

  /** The channel child of a channel struct: a property `Channel` tagged `NameProperty`
      holding a name with text. */
  predicate IsChannelField(c: Option<Property>)
  {
    && c.Some? && c.value.Simple? && NameText(c.value.hdr.name) == Some("Channel")
    && c.value.hdr.propertyType == Some("NameProperty")
    && c.value.payload.NameValue? && NameText(c.value.payload.nameValue).Some?
  }

  /** The response child of a channel struct: an enum `Response` tagged `EnumProperty`,
      of type `ECollisionResponse` over bytes, holding a value with text. */
  predicate IsResponseField(c: Option<Property>)
  {
    && c.Some? && c.value.Enum? && NameText(c.value.hdr.name) == Some("Response")
    && c.value.hdr.propertyType == Some("EnumProperty")
    && c.value.enumType.Some? && NameText(c.value.enumType.value) == Some("ECollisionResponse")
    && c.value.innerType.Some? && NameText(c.value.innerType.value) == Some("ByteProperty")
    && c.value.enumValue.Some? && NameText(c.value.enumValue.value).Some?
  }

  /** Reads a channel struct back: its index, channel and response, if it has the shape
      `ResponseChannel` builds. */
  function ReadChannel(p: Property): Option<(nat, string, string)>
  {
    if && p.Struct? && p.hdr.name.Dummy? && IsDigits(p.hdr.name.dummyText)
       && p.hdr.propertyType == Some("StructProperty")
       && p.structType.Some? && NameText(p.structType.value) == Some("ResponseChannel")
       && |p.children| == 2 && IsChannelField(p.children[0]) && IsResponseField(p.children[1])
    then Some((DecimalValue(p.hdr.name.dummyText),
               NameText(p.children[0].value.payload.nameValue).value,
               NameText(p.children[1].value.enumValue.value).value))
    else None
  }

  /** Entry `k` of an array is a channel struct for index `k`. */
  predicate IsChannelAt(els: seq<Option<Property>>, k: nat)
  {
    k < |els| && els[k].Some? && ReadChannel(els[k].value).Some? && ReadChannel(els[k].value).value.0 == k
  }

  /** Reads the table back from a `CollisionResponses` struct, checking that entry `k`
      is named `k`. */
  function ReadResponses(p: Property): Option<seq<(string, string)>>
  {
    if && p.Struct? && NameText(p.hdr.name) == Some("CollisionResponses")
       && p.structType.Some? && NameText(p.structType.value) == Some("CollisionResponse")
       && |p.children| == 1 && p.children[0].Some? && p.children[0].value.Array?
       && NameText(p.children[0].value.hdr.name) == Some("ResponseArray")
       && var els := p.children[0].value.elements;
          forall k :: 0 <= k < |els| ==> IsChannelAt(els, k)
    then
      var els := p.children[0].value.elements;
      Some(seq(|els|, k requires 0 <= k < |els| && IsChannelAt(els, k) =>
             (ReadChannel(els[k].value).value.1, ReadChannel(els[k].value).value.2)))
    else None
  }

  lemma ReadChannelRoundTrip(index: nat, channel: string, response: string)
    ensures ReadChannel(ResponseChannel(index, channel, response)) == Some((index, channel, response))
  {
    DecimalRoundTrip(index);
  }

  /** The struct built from a table reads back as that table: every channel, its
      response and its position are recoverable from the built struct. */
  lemma ReadResponsesRoundTrip(table: seq<(string, string)>)
    ensures ReadResponses(CollisionResponses(table)) == Some(table)
  {
    var els := ResponseArray(table).elements;
    forall k | 0 <= k < |els|
      ensures IsChannelAt(els, k) && ReadChannel(els[k].value) == Some((k, table[k].0, table[k].1))
    {
      ReadChannelRoundTrip(k, table[k].0, table[k].1);
    }
    var r := ReadResponses(CollisionResponses(table));
    assert r.Some? && |r.value| == |table|;
    forall k | 0 <= k < |table| ensures r.value[k] == table[k] {
      assert ReadChannel(els[k].value) == Some((k, table[k].0, table[k].1));
    }
    assert r.value == table;
  }

  /** Whatever schema and override table the asset has, the built struct's complete type
      name is a struct of type `CollisionResponse`, the array's an array of
      `ResponseChannel` structs, and each channel's a struct of type `ResponseChannel`. */
  lemma BuiltTypeNames(ctx: Context, table: seq<(string, string)>)
    requires |table| > 0
    ensures BuildNodes(ctx, CollisionResponses(table))
      == [TypeNode("StructProperty", 1), TypeNode("CollisionResponse", 0)]
    ensures BuildNodes(ctx, ResponseArray(table))
      == [TypeNode("ArrayProperty", 1), TypeNode("StructProperty", 1), TypeNode("ResponseChannel", 0)]
    ensures forall k :: 0 <= k < |table| ==>
      BuildNodes(ctx, ResponseChannel(k, table[k].0, table[k].1))
        == [TypeNode("StructProperty", 1), TypeNode("ResponseChannel", 0)]
  {
    var a := ResponseArray(table);
    var first := ResponseChannel(0, table[0].0, table[0].1);
    assert a.elements[0] == Some(first);
    assert BuildNodes(ctx, a) == BuildArrayNodes(ctx, a, "ArrayProperty");
    assert GetArrayElementNodes(ctx, a) == BuildNodes(ctx, first);
  }

  // ---------------------------------------------------------------------------------
  // Finding the slot and replacing it

  datatype ConvertError =
    | NoBodySetup        // no export is named BodySetup
    | NotNormalExport    // the first BodySetup export has no property list
    | NullProperty       // a null property precedes DefaultInstance
    | NullName           // a property before DefaultInstance has a name without text
    | NoDefaultInstance  // no property is named DefaultInstance
    | NotStruct          // DefaultInstance is not a struct
    | TooFewChildren     // DefaultInstance has no slot 1

  /** The index of the first export named `BodySetup`. */
  function FindBodySetup(exports: seq<Export>): (r: Option<nat>)
    ensures r.Some? ==>
      && r.value < |exports| && exports[r.value].objectName == "BodySetup"
      && forall j :: 0 <= j < r.value ==> exports[j].objectName != "BodySetup"
    ensures r.None? <==> forall j :: 0 <= j < |exports| ==> exports[j].objectName != "BodySetup"
    decreases |exports|
  {
    if |exports| == 0 then None
    else if exports[0].objectName == "BodySetup" then Some(0)
    else match FindBodySetup(exports[1..])
      case None => None
      case Some(j) => Some(j + 1)
  }

  /** The index of the first property named `DefaultInstance`, scanning in order; a
      null property or a name without text met on the way is an error. */
  function FindDefaultInstance(data: seq<Option<Property>>): (r: Result<nat, ConvertError>)
    ensures r.Success? ==>
      && r.value < |data| && data[r.value].Some? && NameText(data[r.value].value.hdr.name) == Some("DefaultInstance")
      && forall j :: 0 <= j < r.value ==>
           data[j].Some? && NameText(data[j].value.hdr.name).Some? && NameText(data[j].value.hdr.name) != Some("DefaultInstance")
    ensures r == Failure(NoDefaultInstance) <==>
      forall j :: 0 <= j < |data| ==>
        data[j].Some? && NameText(data[j].value.hdr.name).Some? && NameText(data[j].value.hdr.name) != Some("DefaultInstance")
    ensures r.Failure? ==> r.error in {NullProperty, NullName, NoDefaultInstance}
    decreases |data|
  {
    if |data| == 0 then Failure(NoDefaultInstance)
    else if data[0].None? then Failure(NullProperty)
    else match NameText(data[0].value.hdr.name)
      case None => Failure(NullName)
      case Some(t) =>
        if t == "DefaultInstance" then Success(0)
        else match FindDefaultInstance(data[1..])
          case Failure(e) => Failure(e)
          case Success(j) => Success(j + 1)
  }

  /** A `DefaultInstance` property reached past present, named properties only is found,
      at its own index or at an earlier one. */
  lemma {:induction false} FindDefaultInstanceFinds(data: seq<Option<Property>>, i: nat)
    requires i < |data| && data[i].Some? && NameText(data[i].value.hdr.name) == Some("DefaultInstance")
    requires forall k :: 0 <= k < i ==> data[k].Some? && NameText(data[k].value.hdr.name).Some?
    ensures FindDefaultInstance(data).Success? && FindDefaultInstance(data).value <= i
    decreases i
  {
    if i > 0 && NameText(data[0].value.hdr.name) != Some("DefaultInstance") {
      FindDefaultInstanceFinds(data[1..], i - 1);
    }
  }

  /** The exports after the conversion, or why it fails. */
  function ConvertSpec(exports: seq<Export>): (r: Result<seq<Export>, ConvertError>)
    ensures r == Failure(NoBodySetup) <==> forall j :: 0 <= j < |exports| ==> exports[j].objectName != "BodySetup"
    ensures r.Success? ==> |r.value| == |exports|
  {
    match FindBodySetup(exports)
    case None => Failure(NoBodySetup)
    case Some(b) =>
      match exports[b]
      case OtherExport(_) => Failure(NotNormalExport)
      case NormalExport(name, data) =>
        match FindDefaultInstance(data)
        case Failure(e) => Failure(e)
        case Success(d) =>
          match data[d].value
          case Struct(h, st, ch) =>
            if |ch| < 2 then Failure(TooFewChildren)
            else
              var instance := Struct(h, st, ch[1 := Some(CollisionResponses(ResponseTable))]);
              Success(exports[b := NormalExport(name, data[d := Some(instance)])])
          case _ => Failure(NotStruct)
  }

  /** A successful conversion changes exactly one thing: slot 1 of the `DefaultInstance`
      struct of the first `BodySetup` export now holds the collision responses. Every
      other export, every other property of that export, every other slot and the
      struct's own header and type are unchanged. */
  lemma ConvertReplacesOnlySlot(exports: seq<Export>)
    requires ConvertSpec(exports).Success?
    ensures FindBodySetup(exports).Some?
    ensures var b := FindBodySetup(exports).value;
      && exports[b].NormalExport?
      && FindDefaultInstance(exports[b].data).Success?
    ensures var out := ConvertSpec(exports).value;
      var b := FindBodySetup(exports).value;
      var d := FindDefaultInstance(exports[b].data).value;
      var before := exports[b].data[d].value;
      && (forall j :: 0 <= j < |exports| && j != b ==> out[j] == exports[j])
      && out[b].NormalExport? && out[b].objectName == exports[b].objectName
      && |out[b].data| == |exports[b].data|
      && (forall j :: 0 <= j < |exports[b].data| && j != d ==> out[b].data[j] == exports[b].data[j])
      && out[b].data[d].Some?
      && var after := out[b].data[d].value;
      && before.Struct? && after.Struct? && |before.children| >= 2
      && after.hdr == before.hdr && after.structType == before.structType
      && |after.children| == |before.children|
      && after.children[1] == Some(CollisionResponses(ResponseTable))
      && (forall j :: 0 <= j < |before.children| && j != 1 ==> after.children[j] == before.children[j])
  {
  }

  /** The conversion fails exactly when the export, the property or the slot is
      missing or of the wrong kind, and then says which. */
  lemma ConvertErrors(exports: seq<Export>)
    ensures FindBodySetup(exports).Some? && exports[FindBodySetup(exports).value].OtherExport? ==>
      ConvertSpec(exports) == Failure(NotNormalExport)
    ensures FindBodySetup(exports).Some? && exports[FindBodySetup(exports).value].NormalExport? ==>
      var data := exports[FindBodySetup(exports).value].data;
      && (FindDefaultInstance(data).Failure? ==> ConvertSpec(exports) == Failure(FindDefaultInstance(data).error))
      && (FindDefaultInstance(data).Success? ==>
            var p := data[FindDefaultInstance(data).value].value;
            && (!p.Struct? ==> ConvertSpec(exports) == Failure(NotStruct))
            && (p.Struct? ==> (ConvertSpec(exports) == Failure(TooFewChildren) <==> |p.children| < 2))
            && (p.Struct? ==> (ConvertSpec(exports).Success? <==> |p.children| >= 2)))
  {
  }

  /** Switches `asset` to the target schema and puts the collision responses into slot 1
      of the `DefaultInstance` struct of its first `BodySetup` export. */
  method ConvertToAugusta(asset: Asset, augusta: Schema) returns (r: Result<(), ConvertError>)
    modifies asset
    ensures asset.mappings == Some(augusta)
    ensures asset.hasUnversionedProperties == old(asset.hasUnversionedProperties)
    ensures asset.objectVersionUE5 == old(asset.objectVersionUE5)
    ensures asset.arrayStructTypeOverride == old(asset.arrayStructTypeOverride)
    ensures r.Success? <==> ConvertSpec(old(asset.exports)).Success?
    ensures r.Failure? ==> r.error == ConvertSpec(old(asset.exports)).error && asset.exports == old(asset.exports)
    ensures r.Success? ==> asset.exports == ConvertSpec(old(asset.exports)).value
  {
    asset.mappings := Some(augusta);
    var collisionResponses := CollisionResponses(ResponseTable);

    var b := FindBodySetup(asset.exports);
    if b.None? {
      return Failure(NoBodySetup);
    }
    var bodySetup := asset.exports[b.value];
    if !bodySetup.NormalExport? {
      return Failure(NotNormalExport);
    }
    var d := FindDefaultInstance(bodySetup.data);
    if d.Failure? {
      return Failure(d.error);
    }
    var defaultInstance := bodySetup.data[d.value].value;
    if !defaultInstance.Struct? {
      return Failure(NotStruct);
    }
    if |defaultInstance.children| < 2 {
      return Failure(TooFewChildren);
    }
    var instance := defaultInstance.(children := defaultInstance.children[1 := Some(collisionResponses)]);
    var data := bodySetup.data[d.value := Some(instance)];
    asset.exports := asset.exports[b.value := bodySetup.(data := data)];
    return Success(());
  }
}
