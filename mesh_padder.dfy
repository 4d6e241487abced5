/**
 * Padding of a static mesh: four bytes `01 00 00 00` are inserted into the export
 * payload at the recorded padding offset of every static mesh section, and the
 * export table and summary in the header are patched for the grown payload.
 *
 * Parsing is outside the model: the parsed package (export table, section offsets,
 * summary) is an input, as the parser hands it over for the two byte buffers.
 */
module MeshPadder {
  import opened Wrappers
  import opened Bytes

  /** A named byte buffer: the header file (`.uasset`) or the payload file (`.uexp`). */
  datatype ByteAsset = ByteAsset(name: string, bytes: seq<byte>)

  /** One entry of the export table. `mesh` is present when the export is a static
      mesh; it then holds, LOD by LOD, the recorded padding offset of each section. */
  datatype ExportEntry = ExportEntry(offsetOfSerialSize: int, serialOffset: int, serialSize: int,
                                     mesh: Option<seq<seq<int>>>)

  datatype Summary = Summary(bulkDataStartOffset: int, offsetOfBulkDataStartOffset: int)

  /** What the parser reports about the two buffers. */
  datatype Package = Package(exports: seq<ExportEntry>, summary: Summary)

  /** Why padding fails: no static mesh export, a section insertion point outside the
      payload, or a header field outside the header. */
  datatype PadError = NoStaticMesh | SectionOutOfRange | HeaderOutOfRange

  const PadBytes: seq<byte> := [1, 0, 0, 0]

  // ---------------------------------------------------------------------------------
  // Writing an 8-byte field

  /** `s` with the 8 bytes at `offset` replaced by the encoding of `value`. */
  function WriteLongSpec(s: seq<byte>, offset: int, value: int): (r: seq<byte>)
    requires 0 <= offset && offset + 8 <= |s|
    ensures |r| == |s|
    ensures r[offset..offset + 8] == EncodeLong(value)
    ensures forall k :: 0 <= k < |s| && !(offset <= k < offset + 8) ==> r[k] == s[k]
  {
    s[..offset] + EncodeLong(value) + s[offset + 8..]
  }

  /** Overwrites the 8 bytes at `offset` with the little-endian encoding of `value`. */
  method WriteLong(bytes: array<byte>, offset: int, value: int)
    requires 0 <= offset && offset + 8 <= bytes.Length
    modifies bytes
    ensures bytes[..] == WriteLongSpec(old(bytes[..]), offset, value)
  {
    var longBytes := EncodeLong(value);
    for i := 0 to 8
      invariant forall k :: 0 <= k < bytes.Length ==>
        bytes[k] == if offset <= k < offset + i then longBytes[k - offset] else old(bytes[k])
    {
      bytes[offset + i] := longBytes[i];
    }
    assert bytes[..] == WriteLongSpec(old(bytes[..]), offset, value);
  }

  // ---------------------------------------------------------------------------------
  // Choosing the static mesh export

  /** The index of the last static mesh export. */
  function LastStaticMesh(exports: seq<ExportEntry>): (r: Option<nat>)
    ensures r.Some? ==> r.value < |exports| && exports[r.value].mesh.Some?
    ensures r.Some? ==> forall j :: r.value < j < |exports| ==> exports[j].mesh.None?
    ensures r.None? <==> forall j :: 0 <= j < |exports| ==> exports[j].mesh.None?
    decreases |exports|
  {
    if |exports| == 0 then None
    else if exports[|exports| - 1].mesh.Some? then Some(|exports| - 1)
    else LastStaticMesh(exports[..|exports| - 1])
  }

  /** Scans the export table; -1 when no export is a static mesh. */
  method FindStaticMesh(exports: seq<ExportEntry>) returns (index: int)
    ensures index == match LastStaticMesh(exports) case Some(m) => m as int case None => -1
  {
    index := -1;
    for i := 0 to |exports|
      invariant index == match LastStaticMesh(exports[..i]) case Some(m) => m as int case None => -1
    {
      assert exports[..i + 1][..i] == exports[..i];
      if exports[i].mesh.Some? {
        index := i;
      }
    }
    assert exports[..|exports|] == exports;
  }

  // ---------------------------------------------------------------------------------
  // Gathering the sections

  /** The sections of all LODs, LOD by LOD, in order within each LOD. */
  function Flatten(lods: seq<seq<int>>): (r: seq<int>)
    decreases |lods|
  {
    if |lods| == 0 then [] else Flatten(lods[..|lods| - 1]) + lods[|lods| - 1]
  }

  lemma {:induction false} FlattenConcat(a: seq<seq<int>>, b: seq<seq<int>>)
    ensures Flatten(a + b) == Flatten(a) + Flatten(b)
    decreases |b|
  {
    if |b| > 0 {
      assert (a + b)[..|a + b| - 1] == a + b[..|b| - 1];
      FlattenConcat(a, b[..|b| - 1]);
    } else {
      assert a + b == a;
    }
  }

  lemma FlattenSingle(l: seq<int>)
    ensures Flatten([l]) == l
  {
    assert [l][..0] == [];
  }

  method CollectSections(lods: seq<seq<int>>) returns (sections: seq<int>)
    ensures sections == Flatten(lods)
  {
    sections := [];
    for k := 0 to |lods|
      invariant sections == Flatten(lods[..k])
    {
      assert lods[..k + 1][..k] == lods[..k];
      sections := sections + lods[k];
    }
    assert lods[..|lods|] == lods;
  }

  // ---------------------------------------------------------------------------------
  // Inserting the pads

  /** Where the pad of section `i` goes in the growing payload: its recorded offset cast
      to `int`, shifted by the pads already inserted. */
  function InsertionPoint(offset: int, i: nat): int
  {
    Int32(Int32(offset) + i * |PadBytes|)
  }

  /** The insertion point is always an `int`, and it is the offset plus four per earlier
      section whenever that sum fits in an `int`. */
  lemma InsertionPointNoWrap(offset: int, i: nat)
    ensures -TwoTo31 <= InsertionPoint(offset, i) < TwoTo31
    ensures -TwoTo31 <= offset && offset + |PadBytes| * i < TwoTo31 ==>
      InsertionPoint(offset, i) == offset + |PadBytes| * i
  {
  }

  /** `InsertRange`: fails when the index is outside `[0, |t|]`; otherwise the pad goes
      in at the index and the bytes on either side are kept. */
  function InsertPad(t: seq<byte>, at: int): (r: Option<seq<byte>>)
    ensures r.Some? <==> 0 <= at <= |t|
    ensures r.Some? ==> |r.value| == |t| + |PadBytes| && r.value[at..at + |PadBytes|] == PadBytes
    ensures r.Some? ==> r.value[..at] == t[..at] && r.value[at + |PadBytes|..] == t[at..]
  {
    if 0 <= at <= |t| then Some(t[..at] + PadBytes + t[at..]) else None
  }

  /** The payload after the pads of `offsets` were inserted one after the other. */
  function PadAll(s: seq<byte>, offsets: seq<int>): (r: Option<seq<byte>>)
    ensures r.Some? ==> |r.value| == |s| + |PadBytes| * |offsets|
    decreases |offsets|
  {
    if |offsets| == 0 then Some(s)
    else match PadAll(s, offsets[..|offsets| - 1])
      case None => None
      case Some(t) => InsertPad(t, InsertionPoint(offsets[|offsets| - 1], |offsets| - 1))
  }

  /** Once one insertion fails, the whole padding fails. */
  lemma {:induction false} PadAllPrefixFails(s: seq<byte>, offsets: seq<int>, i: nat)
    requires i <= |offsets| && PadAll(s, offsets[..i]).None?
    ensures PadAll(s, offsets).None?
    decreases |offsets| - i
  {
    if i < |offsets| {
      assert offsets[..i + 1][..i] == offsets[..i];
      PadAllPrefixFails(s, offsets, i + 1);
    } else {
      assert offsets[..i] == offsets;
    }
  }

  /** Removes the pads again, last one first. */
  function Unpad(t: seq<byte>, offsets: seq<int>): seq<byte>
    decreases |offsets|
  {
    if |offsets| == 0 then t
    else
      var at := InsertionPoint(offsets[|offsets| - 1], |offsets| - 1);
      var t' := if 0 <= at && at + |PadBytes| <= |t| then t[..at] + t[at + |PadBytes|..] else t;
      Unpad(t', offsets[..|offsets| - 1])
  }

  /** Removing the pads in reverse order restores the payload exactly. */
  lemma {:induction false} UnpadPadAll(s: seq<byte>, offsets: seq<int>)
    requires PadAll(s, offsets).Some?
    ensures Unpad(PadAll(s, offsets).value, offsets) == s
    decreases |offsets|
  {
    if |offsets| > 0 {
      var prefix := offsets[..|offsets| - 1];
      var t := PadAll(s, prefix).value;
      var at := InsertionPoint(offsets[|offsets| - 1], |offsets| - 1);
      var u := PadAll(s, offsets).value;
      assert u == t[..at] + PadBytes + t[at..];
      assert u[..at] + u[at + |PadBytes|..] == t;
      UnpadPadAll(s, prefix);
    }
  }

  /** Recorded offsets that lie inside the payload, in non-decreasing order, with a
      payload that stays within the size of a .NET list. */
  predicate WellPlaced(s: seq<byte>, offsets: seq<int>)
  {
    && (forall i :: 0 <= i < |offsets| ==> 0 <= offsets[i] <= |s|)
    && (forall i, j :: 0 <= i < j < |offsets| ==> offsets[i] <= offsets[j])
    && |s| + |PadBytes| * |offsets| < TwoTo31
  }

  /** An insertion at or after `p + 4` leaves the four bytes at `p` in place. */
  lemma InsertKeepsEarlier(t: seq<byte>, at: int, p: int)
    requires 0 <= p && p + |PadBytes| <= at <= |t|
    ensures (t[..at] + PadBytes + t[at..])[p..p + |PadBytes|] == t[p..p + |PadBytes|]
  {
  }

  /** For well-placed offsets no cast wraps: the insertion point is the offset plus four
      per earlier section. */
  lemma WellPlacedPoint(s: seq<byte>, offsets: seq<int>, i: nat)
    requires WellPlaced(s, offsets) && i < |offsets|
    ensures InsertionPoint(offsets[i], i) == offsets[i] + |PadBytes| * i
  {
    InsertionPointNoWrap(offsets[i], i);
  }

  /** Every prefix of well-placed offsets is well placed. */
  lemma WellPlacedPrefix(s: seq<byte>, offsets: seq<int>, n: nat)
    requires WellPlaced(s, offsets) && n <= |offsets|
    ensures WellPlaced(s, offsets[..n])
  {
    assert forall i :: 0 <= i < n ==> offsets[..n][i] == offsets[i];
  }

  /** For well-placed offsets every insertion succeeds, section `i`'s pad lands at its
      offset plus four per earlier section, and every pad is still in place at the end. */
  lemma {:induction false} PadsInPlace(s: seq<byte>, offsets: seq<int>)
    requires WellPlaced(s, offsets)
    ensures PadAll(s, offsets).Some?
    ensures forall i :: 0 <= i < |offsets| ==> InsertionPoint(offsets[i], i) == offsets[i] + |PadBytes| * i
    ensures forall i :: 0 <= i < |offsets| ==>
      PadAll(s, offsets).value[offsets[i] + |PadBytes| * i..offsets[i] + |PadBytes| * i + |PadBytes|] == PadBytes
    decreases |offsets|
  {
    forall i | 0 <= i < |offsets| ensures InsertionPoint(offsets[i], i) == offsets[i] + |PadBytes| * i {
      WellPlacedPoint(s, offsets, i);
    }
    if |offsets| > 0 {
      var n := |offsets| - 1;
      var prefix := offsets[..n];
      WellPlacedPrefix(s, offsets, n);
      PadsInPlace(s, prefix);
      var t := PadAll(s, prefix).value;
      var at := offsets[n] + |PadBytes| * n;
      var u := PadAll(s, offsets).value;
      assert u == t[..at] + PadBytes + t[at..];
      PadsInPlaceStep(s, offsets, prefix, t, at, u);
    }
  }

  /** The inductive step of `PadsInPlace`: inserting the last pad keeps the earlier ones
      in place and puts the new one at its point. */
  lemma PadsInPlaceStep(s: seq<byte>, offsets: seq<int>, prefix: seq<int>, t: seq<byte>, at: int, u: seq<byte>)
    requires WellPlaced(s, offsets) && |offsets| > 0 && prefix == offsets[..|offsets| - 1]
    requires |t| == |s| + |PadBytes| * |prefix|
    requires forall i :: 0 <= i < |prefix| ==>
      t[prefix[i] + |PadBytes| * i..prefix[i] + |PadBytes| * i + |PadBytes|] == PadBytes
    requires at == offsets[|offsets| - 1] + |PadBytes| * (|offsets| - 1)
    requires u == t[..at] + PadBytes + t[at..]
    ensures forall i :: 0 <= i < |offsets| ==>
      u[offsets[i] + |PadBytes| * i..offsets[i] + |PadBytes| * i + |PadBytes|] == PadBytes
  {
    var n := |offsets| - 1;
    forall i | 0 <= i < |offsets|
      ensures u[offsets[i] + |PadBytes| * i..offsets[i] + |PadBytes| * i + |PadBytes|] == PadBytes
    {
      var p := offsets[i] + |PadBytes| * i;
      if i < n {
        assert prefix[i] == offsets[i];
        assert t[p..p + |PadBytes|] == PadBytes;
        InsertKeepsEarlier(t, at, p);
      } else {
        assert u[at..at + |PadBytes|] == PadBytes;
      }
    }
  }

  /** For well-placed offsets the pads go in at strictly increasing points: each one
      lies after the previous pad. */
  lemma PadPointsIncrease(s: seq<byte>, offsets: seq<int>)
    requires WellPlaced(s, offsets)
    ensures forall i, j :: 0 <= i < j < |offsets| ==> InsertionPoint(offsets[i], i) < InsertionPoint(offsets[j], j)
  {
    forall i, j | 0 <= i < j < |offsets|
      ensures InsertionPoint(offsets[i], i) < InsertionPoint(offsets[j], j)
    {
      WellPlacedPoint(s, offsets, i);
      WellPlacedPoint(s, offsets, j);
    }
  }

  /** The worked example: sections recorded at 100, 250 and 400 get their pads at 100,
      254 and 408, and the payload grows by 12 bytes. */
  lemma ThreeSections(s: seq<byte>)
    requires 400 <= |s| && |s| + 12 < TwoTo31
    ensures PadAll(s, [100, 250, 400]).Some?
    ensures var t := PadAll(s, [100, 250, 400]).value;
      && |t| == |s| + 12
      && t[100..104] == PadBytes && t[254..258] == PadBytes && t[408..412] == PadBytes
  {
    var offsets := [100, 250, 400];
    assert WellPlaced(s, offsets);
    PadsInPlace(s, offsets);
    assert offsets[1] + |PadBytes| * 1 == 254;
    assert offsets[2] + |PadBytes| * 2 == 408;
  }

  // ---------------------------------------------------------------------------------
  // Patching the header

  /** One 8-byte header field to overwrite. */
  datatype Write = Write(at: int, value: int)

  /** The fields rewritten for a payload grown by `increase` bytes: the mesh export's
      serial size, the serial offset of every later export, and the bulk data start
      offset when it is positive; each field offset is cast to `int`. */
  function HeaderWrites(pkg: Package, m: nat, increase: int): (r: seq<Write>)
    requires m < |pkg.exports|
    ensures |r| == |pkg.exports| - m + (if pkg.summary.bulkDataStartOffset > 0 then 1 else 0)
  {
    [Write(Int32(pkg.exports[m].offsetOfSerialSize), pkg.exports[m].serialSize + increase)]
    + LaterWrites(pkg.exports, m + 1, increase)
    + (if pkg.summary.bulkDataStartOffset > 0
       then [Write(Int32(pkg.summary.offsetOfBulkDataStartOffset), pkg.summary.bulkDataStartOffset + increase)]
       else [])
  }

  /** The serial-offset fields of the exports from `from` on; the serial offset is
      stored 8 bytes after the serial size. */
  function LaterWrites(exports: seq<ExportEntry>, from: nat, increase: int): (r: seq<Write>)
    requires from <= |exports|
    ensures |r| == |exports| - from
    ensures forall k :: 0 <= k < |r| ==> r[k].at == Int32(exports[from + k].offsetOfSerialSize + 8)
    ensures forall k :: 0 <= k < |r| ==> r[k].value == exports[from + k].serialOffset + increase
  {
    seq(|exports| - from, k requires 0 <= k < |exports| - from =>
      Write(Int32(exports[from + k].offsetOfSerialSize + 8), exports[from + k].serialOffset + increase))
  }

  /** The writes performed one after the other; fails at the first one outside `h`. */
  function ApplyWrites(h: seq<byte>, ws: seq<Write>): (r: Option<seq<byte>>)
    ensures r.Some? ==> |r.value| == |h|
    decreases |ws|
  {
    if |ws| == 0 then Some(h)
    else match ApplyWrites(h, ws[..|ws| - 1])
      case None => None
      case Some(t) =>
        var w := ws[|ws| - 1];
        if 0 <= w.at && w.at + 8 <= |t| then Some(WriteLongSpec(t, w.at, w.value)) else None
  }

  /** No two fields overlap. */
  predicate Disjoint(ws: seq<Write>)
  {
    forall a, b :: 0 <= a < b < |ws| ==> ws[a].at + 8 <= ws[b].at || ws[b].at + 8 <= ws[a].at
  }

  /** Byte `p` lies in none of the fields. */
  predicate Untouched(ws: seq<Write>, p: int)
  {
    forall k :: 0 <= k < |ws| ==> !(ws[k].at <= p < ws[k].at + 8)
  }

  /** `h` holds the encoding of `v` at `at`. */
  predicate Holds(h: seq<byte>, at: int, v: int)
  {
    0 <= at && at + 8 <= |h| && h[at..at + 8] == EncodeLong(v)
  }

  /** After non-overlapping writes, every field holds its new value and every other
      byte is unchanged. */
  lemma {:induction false} ApplyWritesEffect(h: seq<byte>, ws: seq<Write>)
    requires ApplyWrites(h, ws).Some? && Disjoint(ws)
    ensures forall k :: 0 <= k < |ws| ==> Holds(ApplyWrites(h, ws).value, ws[k].at, ws[k].value)
    ensures forall p :: 0 <= p < |h| && Untouched(ws, p) ==> ApplyWrites(h, ws).value[p] == h[p]
    decreases |ws|
  {
    if |ws| > 0 {
      var n := |ws| - 1;
      var prefix := ws[..n];
      assert Disjoint(prefix);
      ApplyWritesEffect(h, prefix);
      var t := ApplyWrites(h, prefix).value;
      var u := ApplyWrites(h, ws).value;
      var w := ws[n];
      assert u == WriteLongSpec(t, w.at, w.value);
      forall k | 0 <= k < n
        ensures Holds(u, ws[k].at, ws[k].value)
      {
        assert prefix[k] == ws[k];
        assert Holds(t, ws[k].at, ws[k].value);
        assert u[ws[k].at..ws[k].at + 8] == t[ws[k].at..ws[k].at + 8];
      }
      forall p | 0 <= p < |h| && Untouched(ws, p)
        ensures u[p] == h[p]
      {
        assert Untouched(prefix, p) by {
          forall k | 0 <= k < n ensures !(prefix[k].at <= p < prefix[k].at + 8) {
            assert prefix[k] == ws[k];
          }
        }
      }
    }
  }

  /** Writing the values the fields already hold changes nothing, in any order and
      whether or not the fields overlap. */
  lemma {:induction false} ApplyWritesIdentity(h: seq<byte>, ws: seq<Write>)
    requires forall k :: 0 <= k < |ws| ==> Holds(h, ws[k].at, ws[k].value)
    ensures ApplyWrites(h, ws) == Some(h)
    decreases |ws|
  {
    if |ws| > 0 {
      var n := |ws| - 1;
      assert forall k :: 0 <= k < n ==> ws[..n][k] == ws[k];
      ApplyWritesIdentity(h, ws[..n]);
      var w := ws[n];
      assert Holds(h, w.at, w.value);
      assert WriteLongSpec(h, w.at, w.value) == h;
    }
  }

  // ---------------------------------------------------------------------------------
  // The whole operation

  /** Pads the payload and patches the header, or says why it cannot. */
  function PadSpec(uasset: ByteAsset, uexp: ByteAsset, pkg: Package): (r: Result<(ByteAsset, ByteAsset), PadError>)
    ensures r == Failure(NoStaticMesh) <==> forall j :: 0 <= j < |pkg.exports| ==> pkg.exports[j].mesh.None?
    ensures r.Success? ==> r.value.0.name == uasset.name && r.value.1.name == uexp.name
    ensures r.Success? ==> |r.value.0.bytes| == |uasset.bytes|
  {
    match LastStaticMesh(pkg.exports)
    case None => Failure(NoStaticMesh)
    case Some(m) =>
      var sections := Flatten(pkg.exports[m].mesh.value);
      match PadAll(uexp.bytes, sections)
      case None => Failure(SectionOutOfRange)
      case Some(payload) =>
        match ApplyWrites(uasset.bytes, HeaderWrites(pkg, m, |PadBytes| * |sections|))
        case None => Failure(HeaderOutOfRange)
        case Some(header) => Success((ByteAsset(uasset.name, header), ByteAsset(uexp.name, payload)))
  }

  /** Inserts the pads one after the other into a copy of the payload. */
  method PadPayload(s: seq<byte>, sections: seq<int>) returns (r: Option<seq<byte>>)
    ensures r == PadAll(s, sections)
  {
    var payload := s;
    for i := 0 to |sections|
      invariant PadAll(s, sections[..i]) == Some(payload)
    {
      assert sections[..i + 1][..i] == sections[..i];
      var at := InsertionPoint(sections[i], i);
      if !(0 <= at <= |payload|) {
        PadAllPrefixFails(s, sections, i + 1);
        return None;
      }
      payload := payload[..at] + PadBytes + payload[at..];
    }
    assert sections[..|sections|] == sections;
    return Some(payload);
  }

  /** One more write on top of the writes before it. */
  lemma ApplyWritesStep(h: seq<byte>, ws: seq<Write>, n: nat)
    requires n < |ws| && ApplyWrites(h, ws[..n]).Some?
    requires 0 <= ws[n].at && ws[n].at + 8 <= |h|
    ensures ApplyWrites(h, ws[..n + 1]) == Some(WriteLongSpec(ApplyWrites(h, ws[..n]).value, ws[n].at, ws[n].value))
  {
    assert ws[..n + 1][..n] == ws[..n];
  }

  /** The patch succeeds exactly when every field lies inside the header. */
  lemma {:induction false} ApplyWritesSucceeds(h: seq<byte>, ws: seq<Write>)
    ensures ApplyWrites(h, ws).Some? <==> forall k :: 0 <= k < |ws| ==> 0 <= ws[k].at && ws[k].at + 8 <= |h|
    decreases |ws|
  {
    if |ws| > 0 {
      var n := |ws| - 1;
      ApplyWritesSucceeds(h, ws[..n]);
      assert forall k :: 0 <= k < n ==> ws[..n][k] == ws[k];
    }
  }

  /** A write outside the header makes the whole patch fail. */
  lemma ApplyWritesFails(h: seq<byte>, ws: seq<Write>, n: nat)
    requires n < |ws| && !(0 <= ws[n].at && ws[n].at + 8 <= |h|)
    ensures ApplyWrites(h, ws).None?
  {
    ApplyWritesSucceeds(h, ws);
  }

  /** The sections of the mesh export `PadSpec` picks. */
  function MeshSections(pkg: Package): (r: seq<int>)
    requires LastStaticMesh(pkg.exports).Some?
  {
    Flatten(pkg.exports[LastStaticMesh(pkg.exports).value].mesh.value)
  }

  /** The header writes name the mesh export's serial size first, then the serial
      offset of each later export in index order, then the bulk data start offset when it
      is positive. */
  lemma HeaderWritesFields(pkg: Package, m: nat, increase: int)
    requires m < |pkg.exports|
    ensures var ws := HeaderWrites(pkg, m, increase);
      && ws[0] == Write(Int32(pkg.exports[m].offsetOfSerialSize), pkg.exports[m].serialSize + increase)
      && (forall j :: m < j < |pkg.exports| ==>
            ws[j - m] == Write(Int32(pkg.exports[j].offsetOfSerialSize + 8), pkg.exports[j].serialOffset + increase))
      && (pkg.summary.bulkDataStartOffset > 0 ==>
            ws[|pkg.exports| - m] == Write(Int32(pkg.summary.offsetOfBulkDataStartOffset), pkg.summary.bulkDataStartOffset + increase))
  {
    var ws := HeaderWrites(pkg, m, increase);
    var later := LaterWrites(pkg.exports, m + 1, increase);
    forall j | m < j < |pkg.exports|
      ensures ws[j - m] == Write(Int32(pkg.exports[j].offsetOfSerialSize + 8), pkg.exports[j].serialOffset + increase)
    {
      LaterWriteAt(pkg, m, increase, j);
    }
  }

  lemma LaterWriteAt(pkg: Package, m: nat, increase: int, j: nat)
    requires m < j < |pkg.exports|
    ensures HeaderWrites(pkg, m, increase)[j - m]
      == Write(Int32(pkg.exports[j].offsetOfSerialSize + 8), pkg.exports[j].serialOffset + increase)
  {
    var later := LaterWrites(pkg.exports, m + 1, increase);
    assert HeaderWrites(pkg, m, increase)[j - m] == later[j - m - 1];
  }

  /** A successful padding grows the payload by four bytes per section, from which
      removing the pads restores the input, and keeps the header's length. */
  lemma PadSpecShape(uasset: ByteAsset, uexp: ByteAsset, pkg: Package)
    requires PadSpec(uasset, uexp, pkg).Success?
    ensures LastStaticMesh(pkg.exports).Some?
    ensures var sections := MeshSections(pkg);
      var (header, payload) := PadSpec(uasset, uexp, pkg).value;
      && |payload.bytes| == |uexp.bytes| + |PadBytes| * |sections|
      && Unpad(payload.bytes, sections) == uexp.bytes
      && |header.bytes| == |uasset.bytes|
  {
    UnpadPadAll(uexp.bytes, MeshSections(pkg));
  }

  /** If the patched fields do not overlap, a successful patch leaves the mesh
      export's serial size, every later export's serial offset and (when positive) the
      bulk data start offset holding their old values plus the growth. */
  lemma PatchEffect(h0: seq<byte>, pkg: Package, m: nat, increase: int)
    requires m < |pkg.exports|
    requires ApplyWrites(h0, HeaderWrites(pkg, m, increase)).Some? && Disjoint(HeaderWrites(pkg, m, increase))
    ensures var h := ApplyWrites(h0, HeaderWrites(pkg, m, increase)).value;
      && Holds(h, Int32(pkg.exports[m].offsetOfSerialSize), pkg.exports[m].serialSize + increase)
      && (forall j :: m < j < |pkg.exports| ==>
            Holds(h, Int32(pkg.exports[j].offsetOfSerialSize + 8), pkg.exports[j].serialOffset + increase))
      && (pkg.summary.bulkDataStartOffset > 0 ==>
            Holds(h, Int32(pkg.summary.offsetOfBulkDataStartOffset), pkg.summary.bulkDataStartOffset + increase))
  {
    var ws := HeaderWrites(pkg, m, increase);
    var h := ApplyWrites(h0, ws).value;
    WriteHolds(h0, ws, 0);
    forall j | m < j < |pkg.exports|
      ensures Holds(h, Int32(pkg.exports[j].offsetOfSerialSize + 8), pkg.exports[j].serialOffset + increase)
    {
      LaterWriteAt(pkg, m, increase, j);
      WriteHolds(h0, ws, j - m);
    }
    if pkg.summary.bulkDataStartOffset > 0 {
      var n := |pkg.exports| - m;
      assert ws[n] == Write(Int32(pkg.summary.offsetOfBulkDataStartOffset), pkg.summary.bulkDataStartOffset + increase);
      WriteHolds(h0, ws, n);
    }
  }

  /** One field of a non-overlapping patch holds its value. */
  lemma WriteHolds(h: seq<byte>, ws: seq<Write>, k: nat)
    requires ApplyWrites(h, ws).Some? && Disjoint(ws) && k < |ws|
    ensures Holds(ApplyWrites(h, ws).value, ws[k].at, ws[k].value)
  {
    ApplyWritesEffect(h, ws);
  }

  /** If the patched fields do not overlap, a successful patch leaves every header byte
      outside them unchanged. */
  lemma PatchUntouched(h0: seq<byte>, pkg: Package, m: nat, increase: int)
    requires m < |pkg.exports|
    requires ApplyWrites(h0, HeaderWrites(pkg, m, increase)).Some? && Disjoint(HeaderWrites(pkg, m, increase))
    ensures var h := ApplyWrites(h0, HeaderWrites(pkg, m, increase)).value;
      forall p :: 0 <= p < |h| && Untouched(HeaderWrites(pkg, m, increase), p) ==> h[p] == h0[p]
  {
    ApplyWritesEffect(h0, HeaderWrites(pkg, m, increase));
  }

  /** After a successful padding the header is the patch of the original header. */
  lemma PadSpecHeader(uasset: ByteAsset, uexp: ByteAsset, pkg: Package)
    requires PadSpec(uasset, uexp, pkg).Success?
    ensures LastStaticMesh(pkg.exports).Some?
    ensures var m := LastStaticMesh(pkg.exports).value;
      PadSpec(uasset, uexp, pkg).value.0.bytes
        == ApplyWrites(uasset.bytes, HeaderWrites(pkg, m, |PadBytes| * |MeshSections(pkg)|)).value
  {
  }

  /** When the patched fields do not overlap, a successful padding leaves the mesh
      export's serial size, every later export's serial offset and (when positive) the
      bulk data start offset grown by four bytes per section. */
  lemma PadSpecFields(uasset: ByteAsset, uexp: ByteAsset, pkg: Package, m: nat, increase: int, h: seq<byte>)
    requires PadSpec(uasset, uexp, pkg).Success? && h == PadSpec(uasset, uexp, pkg).value.0.bytes
    requires LastStaticMesh(pkg.exports) == Some(m) && increase == |PadBytes| * |MeshSections(pkg)|
    requires Disjoint(HeaderWrites(pkg, m, increase))
    ensures Holds(h, Int32(pkg.exports[m].offsetOfSerialSize), pkg.exports[m].serialSize + increase)
    ensures forall j :: m < j < |pkg.exports| ==>
      Holds(h, Int32(pkg.exports[j].offsetOfSerialSize + 8), pkg.exports[j].serialOffset + increase)
    ensures pkg.summary.bulkDataStartOffset > 0 ==>
      Holds(h, Int32(pkg.summary.offsetOfBulkDataStartOffset), pkg.summary.bulkDataStartOffset + increase)
  {
    var ws := HeaderWrites(pkg, m, increase);
    assert ApplyWrites(uasset.bytes, ws).Some? && h == ApplyWrites(uasset.bytes, ws).value by {
      PadSpecHeader(uasset, uexp, pkg);
    }
    PatchEffect(uasset.bytes, pkg, m, increase);
  }

  /** When the patched fields do not overlap, a successful padding leaves every header
      byte outside them as it was. */
  lemma PadSpecUntouched(uasset: ByteAsset, uexp: ByteAsset, pkg: Package, m: nat, increase: int, h: seq<byte>)
    requires PadSpec(uasset, uexp, pkg).Success? && h == PadSpec(uasset, uexp, pkg).value.0.bytes
    requires LastStaticMesh(pkg.exports) == Some(m) && increase == |PadBytes| * |MeshSections(pkg)|
    requires Disjoint(HeaderWrites(pkg, m, increase))
    ensures forall p :: 0 <= p < |h| && Untouched(HeaderWrites(pkg, m, increase), p) ==> h[p] == uasset.bytes[p]
  {
    var ws := HeaderWrites(pkg, m, increase);
    assert ApplyWrites(uasset.bytes, ws).Some? && h == ApplyWrites(uasset.bytes, ws).value by {
      PadSpecHeader(uasset, uexp, pkg);
    }
    PatchUntouched(uasset.bytes, pkg, m, increase);
  }

  /** With well-placed section offsets the payload never fails, and every pad sits at
      its section's offset plus four per earlier section. */
  lemma PadSpecPads(uasset: ByteAsset, uexp: ByteAsset, pkg: Package)
    requires LastStaticMesh(pkg.exports).Some? && WellPlaced(uexp.bytes, MeshSections(pkg))
    ensures PadSpec(uasset, uexp, pkg) != Failure(SectionOutOfRange)
    ensures var sections := MeshSections(pkg);
      PadSpec(uasset, uexp, pkg).Success? ==>
        forall i :: 0 <= i < |sections| ==>
          PadSpec(uasset, uexp, pkg).value.1.bytes[sections[i] + |PadBytes| * i..sections[i] + |PadBytes| * i + |PadBytes|]
            == PadBytes
  {
    PadsInPlace(uexp.bytes, MeshSections(pkg));
  }

  /** A mesh without sections leaves both buffers byte for byte as they were, provided
      the header fields hold the values the parser reported. */
  lemma PadSpecNoSections(uasset: ByteAsset, uexp: ByteAsset, pkg: Package)
    requires LastStaticMesh(pkg.exports).Some? && MeshSections(pkg) == []
    requires var ws := HeaderWrites(pkg, LastStaticMesh(pkg.exports).value, 0);
      forall k :: 0 <= k < |ws| ==> Holds(uasset.bytes, ws[k].at, ws[k].value)
    ensures PadSpec(uasset, uexp, pkg) == Success((uasset, uexp))
  {
    var m := LastStaticMesh(pkg.exports).value;
    ApplyWritesIdentity(uasset.bytes, HeaderWrites(pkg, m, 0));
  }

  /** Performs the writes one after the other on a copy of the header; fails at the
      first field outside it. */
  method PatchHeader(h: seq<byte>, ws: seq<Write>) returns (r: Option<seq<byte>>)
    ensures r == ApplyWrites(h, ws)
  {
    var header := new byte[|h|](k requires 0 <= k < |h| => h[k]);
    assert header[..] == h;
    assert ws[..0] == [];
    for k := 0 to |ws|
      invariant ApplyWrites(h, ws[..k]) == Some(header[..])
    {
      var w := ws[k];
      if !(0 <= w.at && w.at + 8 <= header.Length) {
        ApplyWritesFails(h, ws, k);
        return None;
      }
      ApplyWritesStep(h, ws, k);
      WriteLong(header, w.at, w.value);
    }
    assert ws[..|ws|] == ws;
    return Some(header[..]);
  }

  /** Pads every section of the last static mesh export and patches the header. */
  method PadStaticMesh(uasset: ByteAsset, uexp: ByteAsset, pkg: Package)
    returns (r: Result<(ByteAsset, ByteAsset), PadError>)
    ensures r == PadSpec(uasset, uexp, pkg)
  {
    var m := FindStaticMesh(pkg.exports);
    if m == -1 {
      return Failure(NoStaticMesh);
    }
    var sections := CollectSections(pkg.exports[m].mesh.value);
    var payload := PadPayload(uexp.bytes, sections);
    if payload.None? {
      return Failure(SectionOutOfRange);
    }
    var header := PatchHeader(uasset.bytes, HeaderWrites(pkg, m, |PadBytes| * |sections|));
    if header.None? {
      return Failure(HeaderOutOfRange);
    }
    return Success((ByteAsset(uasset.name, header.value), ByteAsset(uexp.name, payload.value)));
  }
}
