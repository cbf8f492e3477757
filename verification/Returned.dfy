/** What decoding returns is a value of the type, and it can be encoded again. */
module Returned {
  import opened Bytes
  import opened Types
  import opened Wire
  import opened Parse
  import opened Faithful

  // ----- what is returned has the type -----

  /** No Boolean holds anything but 0 and 1. Copied arrays are the only place where decoding does not see to it. */
  predicate Clean(T: Table, t: nat, v: Value)
    decreases v
  {
    match v
    case Fixed(n) => t < |T| && T[t].kind == 0 ==> n < 2
    case ExtV(e) => CleanExt(T, e)
    case DataV(dv) => CleanVariant(T, dv.value)
    case VariantV(x) => CleanVariant(T, x)
    case StructV(fs) => t < |T| ==> CleanFields(T, T[t].members, fs)
    case UnionV(sel, arm) =>
      t < |T| && 0 < sel <= |T[t].members| && arm.Some? ==> Clean(T, T[t].members[sel - 1].ty, arm.value)
    case _ => true
  }

  predicate CleanExt(T: Table, e: ExtObj)
    decreases e
  {
    e.Decoded? ==> Clean(T, e.ty, e.content)
  }

  predicate CleanVariant(T: Table, x: Variant)
    decreases x
  {
    match x
    case Empty => true
    case Scalar(ty, v) => Clean(T, ty, v)
    case Array(ty, arr, _) => CleanArr(T, ty, arr)
  }

  predicate CleanArr(T: Table, t: nat, a: Arr)
    decreases a
  {
    a.Arr? ==> CleanElems(T, t, a.elems)
  }

  predicate CleanElems(T: Table, t: nat, es: seq<Value>)
    decreases es
  {
    es != [] ==> Clean(T, t, es[0]) && CleanElems(T, t, es[1..])
  }

  predicate CleanFields(T: Table, ms: seq<Member>, fs: seq<Field>)
    decreases fs
  {
    ms != [] && fs != [] ==> CleanField(T, ms[0], fs[0]) && CleanFields(T, ms[1..], fs[1..])
  }

  predicate CleanField(T: Table, m: Member, f: Field)
    decreases f
  {
    match f
    case One(v) => Clean(T, m.ty, v)
    case Many(a) => CleanArr(T, m.ty, a)
  }

  /** Whatever is decoded as type t is a value of type t, unless an array of Booleans was copied with an octet above 1. */
  lemma {:induction false} DecTyped(T: Table, t: nat, s: bytes, p: nat, d: nat)
    requires t < |T| && d <= MAX_RECURSION + 1
    ensures var r := Dec(T, t, s, p, d); r.Done? ==> (HasType(T, t, r.v) <==> Clean(T, t, r.v))
    decreases MAX_RECURSION + 1 - d, Rest(s, p), 2
  {
    hide DecFixed, DecStr, DecGuid, DecNode, DecExpanded, DecU16, DecU32, DecLocalized, DecDiag, DecExt, DecData, DecVariant, DecFields,
         ExtTyped, VariantTyped, FieldsTyped, CleanExt, CleanVariant, CleanFields, Pow256;
    var k := T[t].kind;
    if k == EXTENSIONOBJECT { ExtReturned(T, s, p, d); }
    else if k == DATAVALUE { DataReturned(T, s, p, d); }
    else if k == VARIANT { VariantReturned(T, s, p, d); }
    else if k == STRUCTURE {
      if d <= MAX_RECURSION { FieldsReturned(T, T[t].members, s, p, d + 1); }
    } else if k == UNION {
      var r := DecU32(s, p);
      if d <= MAX_RECURSION && r.Done? && 0 < r.v <= |T[t].members| {
        DecTyped(T, T[t].members[r.v - 1].ty, s, r.pos, d + 1);
      }
    } else {
      LeafReturned(T, t, s, p, d);
    }
  }

  lemma LeafReturned(T: Table, t: nat, s: bytes, p: nat, d: nat)
    requires t < |T| && d <= MAX_RECURSION + 1
    requires var k := T[t].kind; k != EXTENSIONOBJECT && k != DATAVALUE && k != VARIANT && k != STRUCTURE && k != UNION
    ensures var r := Dec(T, t, s, p, d); r.Done? ==> HasType(T, t, r.v) && Clean(T, t, r.v) && IsLeaf(r.v)
  {
    hide DecFixed, DecStr, DecGuid, DecNode, DecU16, DecDiag, DecExt, DecData, DecVariant, DecFields, Pow256;
    Pow256One();
    if T[t].kind == EXPANDEDNODEID { ExpandedKind(s, p); }
    if T[t].kind == LOCALIZEDTEXT { LocalizedKind(s, p); }
  }

  lemma Pow256One()
    ensures Pow256(1) == 256
  {
    Pow256Values();
  }

  lemma ExpandedKind(s: bytes, p: nat)
    ensures DecExpanded(s, p).Done? ==> DecExpanded(s, p).v.ExpandedV?
  {
  }

  lemma LocalizedKind(s: bytes, p: nat)
    ensures DecLocalized(s, p).Done? ==> DecLocalized(s, p).v.LocalizedV?
  {
  }

  lemma {:induction false} ExtReturned(T: Table, s: bytes, p: nat, d: nat)
    requires d <= MAX_RECURSION + 1
    ensures var r := DecExt(T, s, p, d); r.Done? ==> (ExtTyped(T, r.v) <==> CleanExt(T, r.v)) && !r.v.Missing?
    decreases MAX_RECURSION + 1 - d, Rest(s, p), 0
  {
    hide DecNode, DecByte, DecStr, Dec, HasType, Clean;
    var r := DecNode(s, p);
    if r.Done? && DecByte(s, r.pos).Done? && Find(T, r.v).Some? {
      DecTyped(T, Find(T, r.v).value, s, r.pos + 5, d);
    }
  }

  lemma {:induction false} UnwrapReturned(T: Table, s: bytes, p: nat, d: nat)
    requires d <= MAX_RECURSION + 1
    ensures var r := DecUnwrap(T, s, p, d); r.Done? ==> (VariantTyped(T, r.v) <==> CleanVariant(T, r.v))
    decreases MAX_RECURSION + 1 - d, Rest(s, p), 1
  {
    hide DecNode, DecByte, Dec, DecExt;
    ExtReturned(T, s, p, d);
    var r := DecNode(s, p);
    if r.Done? && DecByte(s, r.pos).Done? && Find(T, r.v).Some? {
      DecTyped(T, Find(T, r.v).value, s, r.pos + 5, d);
    }
  }

  lemma {:induction false} VariantReturned(T: Table, s: bytes, p: nat, d: nat)
    requires d <= MAX_RECURSION + 1
    ensures var r := DecVariant(T, s, p, d); r.Done? ==> (VariantTyped(T, r.v) <==> CleanVariant(T, r.v))
    decreases MAX_RECURSION + 1 - d, Rest(s, p), 0
  {
    hide Dec, DecArr, DecDims, DecUnwrap, Has, HasType, Clean, ArrTyped, CleanArr;
    if p < |s| && d <= MAX_RECURSION {
      var k := s[p] as int % 64 - 1;
      if 0 <= k <= DIAGNOSTICINFO {
        ArrReturned(T, k, s, p + 1, d + 1);
        DecTyped(T, k, s, p + 1, d + 1);
        UnwrapReturned(T, s, p + 1, d + 1);
      }
    }
  }

  lemma {:induction false} DataReturned(T: Table, s: bytes, p: nat, d: nat)
    requires d <= MAX_RECURSION + 1
    ensures var r := DecData(T, s, p, d); r.Done? ==> (VariantTyped(T, r.v.value) <==> CleanVariant(T, r.v.value))
    decreases MAX_RECURSION + 1 - d, Rest(s, p), 0
  {
    hide DecVariant, DecStamps, Has;
    if p < |s| && d <= MAX_RECURSION {
      VariantReturned(T, s, p + 1, d + 1);
      StampsKeep(s, p + 1, s[p]);
    }
  }

  lemma {:induction false} ArrReturned(T: Table, t: nat, s: bytes, p: nat, d: nat)
    requires t < |T| && d <= MAX_RECURSION + 1
    ensures var r := DecArr(T, t, s, p, d); r.Done? ==> (ArrTyped(T, t, r.v) <==> CleanArr(T, t, r.v))
    decreases MAX_RECURSION + 1 - d, Rest(s, p), 4
  {
    hide DecU32, DecElems, Raw, ElemsTyped, CleanElems;
    var r := DecU32(s, p);
    NoElemsClean(T, t);
    if r.Done? && 0 < r.v <= INT32_MAX {
      if T[t].overlayable {
        assert TypeOk(|T|, T[t]);
        if r.pos + T[t].memSize * r.v <= |s| {
          RawReturned(T, t, s, r.pos, r.v);
        }
      } else {
        ElemsReturned(T, t, s, r.pos, d, r.v);
      }
    }
  }

  lemma NoElemsClean(T: Table, t: nat)
    requires t < |T|
    ensures ElemsTyped(T, t, []) && CleanElems(T, t, [])
  {
  }

  lemma {:induction false} RawReturned(T: Table, t: nat, s: bytes, p: nat, n: nat)
    requires t < |T| && Width(T[t].kind) > 0 && p + Width(T[t].kind) * n <= |s|
    ensures var es := Raw(s, p, Width(T[t].kind), n); |es| == n && (ElemsTyped(T, t, es) <==> CleanElems(T, t, es))
    decreases n
  {
    hide FromLE, Pow256;
    if n > 0 {
      var w := Width(T[t].kind);
      assert w * n == w + w * (n - 1);
      FromLEBound(s[p..p + w]);
      RawReturned(T, t, s, p + w, n - 1);
      var es := Raw(s, p, w, n);
      assert es[1..] == Raw(s, p + w, w, n - 1);
    }
  }

  lemma {:induction false} ElemsReturned(T: Table, t: nat, s: bytes, p: nat, d: nat, n: nat)
    requires t < |T| && d <= MAX_RECURSION + 1
    ensures var r := DecElems(T, t, s, p, d, n); r.Done? ==> |r.v| == n && (ElemsTyped(T, t, r.v) <==> CleanElems(T, t, r.v))
    decreases MAX_RECURSION + 1 - d, Rest(s, p), 3, n
  {
    hide Dec, HasType, Clean;
    if n > 0 {
      DecTyped(T, t, s, p, d);
      var r := Dec(T, t, s, p, d);
      if r.Done? {
        ElemsReturned(T, t, s, r.pos, d, n - 1);
        var q := DecElems(T, t, s, r.pos, d, n - 1);
        assert q.Done? ==> ([r.v] + q.v)[1..] == q.v;
      }
    }
  }

  lemma {:induction false} FieldsReturned(T: Table, ms: seq<Member>, s: bytes, p: nat, d: nat)
    requires MembersOk(|T|, ms) && d <= MAX_RECURSION + 1
    ensures var r := DecFields(T, ms, s, p, d); r.Done? ==> |r.v| == |ms| && (FieldsTyped(T, ms, r.v) <==> CleanFields(T, ms, r.v))
    decreases MAX_RECURSION + 1 - d, Rest(s, p), 6, |ms|
  {
    hide DecField, FieldTyped, CleanField;
    if ms != [] {
      FieldReturned(T, ms[0], s, p, d);
      var r := DecField(T, ms[0], s, p, d);
      if r.Done? {
        FieldsReturned(T, ms[1..], s, r.pos, d);
        var q := DecFields(T, ms[1..], s, r.pos, d);
        assert q.Done? ==> ([r.v] + q.v)[1..] == q.v;
      }
    }
  }

  lemma {:induction false} FieldReturned(T: Table, m: Member, s: bytes, p: nat, d: nat)
    requires m.ty < |T| && d <= MAX_RECURSION + 1
    ensures var r := DecField(T, m, s, p, d); r.Done? ==> (FieldTyped(T, m, r.v) <==> CleanField(T, m, r.v))
    decreases MAX_RECURSION + 1 - d, Rest(s, p), 5
  {
    hide Dec, DecArr, HasType, Clean, ArrTyped, CleanArr;
    if m.isArray {
      ArrReturned(T, m.ty, s, p, d);
    } else {
      DecTyped(T, m.ty, s, p, d);
    }
  }

  /** Where Booleans are copied, an array of one Boolean with the octet 2 is returned as it is. */
  lemma BooleanCopied(T: Table, d: nat)
    requires T[BOOLEAN].overlayable && d <= MAX_RECURSION + 1
    ensures DecArr(T, BOOLEAN, [1, 0, 0, 0, 2], 0, d) == Done(Arr([Fixed(2)]), 5) && !ArrTyped(T, BOOLEAN, Arr([Fixed(2)]))
  {
    hide FromLE;
    var s: bytes := [1, 0, 0, 0, 2];
    assert TypeOk(|T|, T[BOOLEAN]);
    assert DecU32(s, 0) == Done(1, 4) by {
      assert s[0..4] == [1, 0, 0, 0];
      Little(1);
    }
    assert Raw(s, 4, 1, 1) == [Fixed(2)] by {
      assert s[4..5] == [2];
      Little(2);
      assert Raw(s, 5, 1, 0) == [];
    }
  }

  lemma Little(n: u8)
    ensures FromLE([n]) == n && FromLE([n, 0, 0, 0]) == n
  {
    assert FromLE([0]) == 0 && FromLE([0, 0]) == 0 && FromLE([0, 0, 0]) == 0;
  }

  // ----- what is returned can be encoded -----

  /** All content of ExtensionObjects, and every structure in a Variant, is of a type with a numeric id and has a size
      that the signed 32-bit length field holds. */
  predicate Fits(T: Table, t: nat, v: Value)
    requires t < |T| && HasType(T, t, v)
    decreases v, 0
  {
    match v
    case ExtV(e) => FitsExt(T, e)
    case DataV(dv) => dv.hasValue ==> FitsVariant(T, dv.value)
    case VariantV(x) => FitsVariant(T, x)
    case StructV(fs) => FitsFields(T, T[t].members, fs)
    case UnionV(sel, arm) => arm.Some? ==> Fits(T, T[t].members[sel - 1].ty, arm.value)
    case _ => true
  }

  predicate FitsContent(T: Table, ty: nat, v: Value)
    requires ty < |T| && HasType(T, ty, v)
    decreases v, 1
  {
    T[ty].typeId.id.Numeric? && Size(T, ty, v) <= 0x7FFF_FFFF && Fits(T, ty, v)
  }

  predicate FitsExt(T: Table, e: ExtObj)
    requires ExtTyped(T, e)
    decreases e
  {
    e.Decoded? ==> FitsContent(T, e.ty, e.content)
  }

  predicate FitsVariant(T: Table, x: Variant)
    requires VariantTyped(T, x)
    decreases x
  {
    match x
    case Empty => true
    case Scalar(ty, v) => if Wrapped(T, ty) then FitsContent(T, ty, v) else Fits(T, ty, v)
    case Array(ty, arr, _) => FitsArr(T, ty, arr)
  }

  predicate FitsArr(T: Table, t: nat, a: Arr)
    requires ArrTyped(T, t, a)
    decreases a
  {
    a.Arr? ==> FitsElems(T, t, a.elems)
  }

  predicate FitsElems(T: Table, t: nat, es: seq<Value>)
    requires t < |T| && ElemsTyped(T, t, es)
    decreases es
  {
    es != [] ==> Fits(T, t, es[0]) && FitsElems(T, t, es[1..])
  }

  predicate FitsFields(T: Table, ms: seq<Member>, fs: seq<Field>)
    requires FieldsTyped(T, ms, fs)
    decreases fs
  {
    fs != [] ==> FitsField(T, ms[0], fs[0]) && FitsFields(T, ms[1..], fs[1..])
  }

  predicate FitsField(T: Table, m: Member, f: Field)
    requires FieldTyped(T, m, f)
    decreases f
  {
    match f
    case One(v) => Fits(T, m.ty, v)
    case Many(a) => FitsArr(T, m.ty, a)
  }

  lemma StrSendable(s: bytes, p: nat)
    ensures DecStr(s, p).Done? ==> StrOk(DecStr(s, p).v)
  {
  }

  /** Every NodeId that is decoded can be encoded. */
  lemma NodeSendable(s: bytes, p: nat)
    ensures DecNode(s, p).Done? ==> NodeOk(DecNode(s, p).v)
  {
    hide DecStr, DecU16, DecU32, DecGuid, StrOk;
    StrSendable(s, p + 3);
  }

  lemma OptStrSendable(s: bytes, p: nat, on: bool)
    ensures var r := DecOptStr(s, p, on); r.Done? && r.v.Some? ==> StrOk(r.v.value)
  {
    hide DecStr, StrOk;
    StrSendable(s, p);
  }

  lemma DiagFlatSendable(s: bytes, p: nat, b: u8)
    ensures var r := DecDiagFlat(s, p, b);
            r.Done? ==> r.v.inner.None? && (r.v.additionalInfo.Some? ==> StrOk(r.v.additionalInfo.value))
  {
    hide DecOpt32, DecOptStr, StrOk, Has;
    var r := DecDiagNumbers(s, p, b);
    if r.Done? {
      OptStrSendable(s, r.pos, Has(b, 4));
    }
  }

  lemma {:induction false} DiagSendable(s: bytes, p: nat, d: nat)
    requires d <= MAX_RECURSION + 1
    ensures DecDiag(s, p, d).Done? ==> DiagOk(DecDiag(s, p, d).v)
    decreases MAX_RECURSION + 1 - d
  {
    hide DecDiagFlat, StrOk, Has;
    if p < |s| {
      DiagFlatSendable(s, p + 1, s[p]);
      var r := DecDiagFlat(s, p + 1, s[p]);
      if r.Done? && d <= MAX_RECURSION {
        DiagSendable(s, r.pos, d + 1);
      }
    }
  }

  lemma ExpandedSendable(s: bytes, p: nat)
    ensures var r := DecExpanded(s, p); r.Done? ==> r.v.ExpandedV? && NodeOk(r.v.inner) && StrOk(r.v.uri)
  {
    hide DecNode, DecStr, DecU32, Has;
    NodeSendable(s, p);
    var r := DecNode(s, p);
    if r.Done? {
      StrSendable(s, r.pos);
    }
  }

  lemma LocalizedSendable(s: bytes, p: nat)
    ensures var r := DecLocalized(s, p); r.Done? ==> r.v.LocalizedV? && StrOk(r.v.locale) && StrOk(r.v.local)
  {
    hide DecOptStr, Has;
    if p < |s| {
      OptStrSendable(s, p + 1, Has(s[p], 0));
      var r := DecOptStr(s, p + 1, Has(s[p], 0));
      if r.Done? {
        OptStrSendable(s, r.pos, Has(s[p], 1));
      }
    }
  }

  lemma DimsSendable(s: bytes, p: nat, on: bool)
    ensures DecDims(s, p, on).Done? ==> |DecDims(s, p, on).v| <= INT32_MAX
  {
    hide DecU32;
    var r := DecU32(s, p);
    if r.Done? && r.v <= INT32_MAX && r.pos + 4 * r.v <= |s| {
      RawCount(s, r.pos, r.v);
    }
  }

  lemma {:induction false} RawCount(s: bytes, p: nat, n: nat)
    requires p + 4 * n <= |s|
    ensures |RawU32s(s, p, n)| == n
    decreases n
  {
    if n > 0 {
      RawCount(s, p + 4, n - 1);
    }
  }

  lemma LeafSendable(T: Table, t: nat, s: bytes, p: nat, d: nat, e: nat)
    requires t < |T| && d <= MAX_RECURSION + 1
    requires var r := Dec(T, t, s, p, d); r.Done? && IsLeaf(r.v) && HasType(T, t, r.v)
    ensures var v := Dec(T, t, s, p, d).v; Encodable(T, t, v, e) && Fits(T, t, v)
  {
    hide DecFixed, DecStr, DecGuid, DecNode, DecU16, DecDiag, DecExt, DecData, DecVariant, DecFields, DecExpanded, DecLocalized, NodeOk,
         StrOk, DiagOk, Pow256;
    StrSendable(s, p);
    StrSendable(s, p + 2);
    NodeSendable(s, p);
    ExpandedSendable(s, p);
    LocalizedSendable(s, p);
    DiagSendable(s, p, d);
  }

  /** What decoding returns as a value can be encoded again, at no greater depth than it was decoded, exactly when all
      content fits. */
  lemma {:induction false} DecSendable(T: Table, t: nat, s: bytes, p: nat, d: nat, e: nat)
    requires t < |T| && e <= d <= MAX_RECURSION + 1
    requires Dec(T, t, s, p, d).Done? && HasType(T, t, Dec(T, t, s, p, d).v)
    ensures var v := Dec(T, t, s, p, d).v; Encodable(T, t, v, e) <==> Fits(T, t, v)
    decreases MAX_RECURSION + 1 - d, Rest(s, p), 2
  {
    hide DecFixed, DecStr, DecGuid, DecNode, DecExpanded, DecU16, DecU32, DecLocalized, DecDiag, DecExt, DecData, DecVariant, DecFields,
         ExtOk, VariantOk, FieldsOk, FitsExt, FitsVariant, FitsFields, Pow256, ExtTyped, VariantTyped, FieldsTyped;
    var k := T[t].kind;
    if k == EXTENSIONOBJECT { ExtSendable(T, s, p, d, e); }
    else if k == DATAVALUE { DataSendable(T, s, p, d, e); }
    else if k == VARIANT { VariantSendable(T, s, p, d, e); }
    else if k == STRUCTURE { FieldsSendable(T, T[t].members, s, p, d + 1, e + 1); }
    else if k == UNION {
      var r := DecU32(s, p);
      if 0 < r.v <= |T[t].members| {
        DecSendable(T, T[t].members[r.v - 1].ty, s, r.pos, d + 1, e + 1);
      }
    } else {
      LeafReturned(T, t, s, p, d);
      LeafSendable(T, t, s, p, d, e);
    }
  }

  lemma {:induction false} ContentSendable(T: Table, t: nat, s: bytes, p: nat, d: nat, e: nat)
    requires t < |T| && e <= d <= MAX_RECURSION + 1
    requires Dec(T, t, s, p, d).Done? && HasType(T, t, Dec(T, t, s, p, d).v)
    ensures var v := Dec(T, t, s, p, d).v; ContentOk(T, t, v, e) <==> FitsContent(T, t, v)
    decreases MAX_RECURSION + 1 - d, Rest(s, p), 3
  {
    hide Dec, Encodable, Fits, HasType, Size;
    DecSendable(T, t, s, p, d, e);
  }

  lemma {:induction false} ExtSendable(T: Table, s: bytes, p: nat, d: nat, e: nat)
    requires e <= d <= MAX_RECURSION + 1 && DecExt(T, s, p, d).Done? && ExtTyped(T, DecExt(T, s, p, d).v)
    ensures var x := DecExt(T, s, p, d).v; ExtOk(T, x, e) <==> FitsExt(T, x)
    decreases MAX_RECURSION + 1 - d, Rest(s, p), 0
  {
    hide DecNode, DecByte, DecStr, Dec, HasType, NodeOk, StrOk, ContentOk, FitsContent;
    NodeSendable(s, p);
    var r := DecNode(s, p);
    StrSendable(s, r.pos + 1);
    if DecExt(T, s, p, d).v.Decoded? {
      ContentSendable(T, Find(T, r.v).value, s, r.pos + 5, d, e);
    }
  }

  lemma {:induction false} UnwrapSendable(T: Table, s: bytes, p: nat, d: nat, e: nat)
    requires e <= d <= MAX_RECURSION + 1 && DecUnwrap(T, s, p, d).Done? && VariantTyped(T, DecUnwrap(T, s, p, d).v)
    ensures var x := DecUnwrap(T, s, p, d).v; VariantOk(T, x, e) <==> FitsVariant(T, x)
    decreases MAX_RECURSION + 1 - d, Rest(s, p), 1
  {
    hide DecNode, DecByte, Dec, DecExt, ExtOk, FitsExt, ContentOk, FitsContent;
    var r := DecNode(s, p);
    if DecByte(s, r.pos) == Done(1, r.pos + 1) && Find(T, r.v).Some? {
      KnownSendable(T, Find(T, r.v).value, s, r.pos + 5, d, e);
    } else {
      ExtSendable(T, s, p, d, e);
    }
  }

  /** Unwrapped content: as an ExtensionObject again, or directly when its type is built in. */
  lemma {:induction false} KnownSendable(T: Table, t: nat, s: bytes, p: nat, d: nat, e: nat)
    requires t < |T| && e <= d <= MAX_RECURSION + 1
    requires Dec(T, t, s, p, d).Done? && HasType(T, t, Dec(T, t, s, p, d).v)
    ensures var x := Scalar(t, Dec(T, t, s, p, d).v); VariantOk(T, x, e) <==> FitsVariant(T, x)
    decreases MAX_RECURSION + 1 - d, Rest(s, p), 4
  {
    hide Dec, Encodable, Fits, HasType, ContentOk, FitsContent;
    DecSendable(T, t, s, p, d, e);
    ContentSendable(T, t, s, p, d, e);
  }

  lemma {:induction false} VariantSendable(T: Table, s: bytes, p: nat, d: nat, e: nat)
    requires e <= d <= MAX_RECURSION + 1 && DecVariant(T, s, p, d).Done? && VariantTyped(T, DecVariant(T, s, p, d).v)
    ensures var x := DecVariant(T, s, p, d).v; VariantOk(T, x, e) <==> FitsVariant(T, x)
    decreases MAX_RECURSION + 1 - d, Rest(s, p), 0
  {
    hide Dec, DecArr, DecDims, DecUnwrap, Has, HasType, ArrTyped, Encodable, Fits, ArrOk, FitsArr, ContentOk, FitsContent;
    if s[p] != 0 {
      var k := s[p] as int % 64 - 1;
      if Has(s[p], 7) {
        ArrSendable(T, k, s, p + 1, d + 1, e);
        DimsSendable(s, DecArr(T, k, s, p + 1, d + 1).pos, Has(s[p], 6));
      } else if k != EXTENSIONOBJECT {
        DecSendable(T, k, s, p + 1, d + 1, e);
      } else {
        UnwrapSendable(T, s, p + 1, d + 1, e);
      }
    }
  }

  lemma {:induction false} DataSendable(T: Table, s: bytes, p: nat, d: nat, e: nat)
    requires e <= d <= MAX_RECURSION + 1 && DecData(T, s, p, d).Done? && VariantTyped(T, DecData(T, s, p, d).v.value)
    ensures var dv := DecData(T, s, p, d).v; dv.hasValue ==> (VariantOk(T, dv.value, e) <==> FitsVariant(T, dv.value))
    decreases MAX_RECURSION + 1 - d, Rest(s, p), 0
  {
    hide DecVariant, DecStamps, Has, VariantOk, FitsVariant;
    StampsKeep(s, p + 1, s[p]);
    HasValueBit(s, p + 1, s[p]);
    if Has(s[p], 0) {
      VariantSendable(T, s, p + 1, d + 1, e);
    }
  }

  lemma HasValueBit(s: bytes, p: nat, b: u8)
    ensures forall x, q :: DecStamps(s, q, b, x).Done? ==> DecStamps(s, q, b, x).v.hasValue == Has(b, 0)
  {
    hide DecOpt16, DecOpt32, DecOpt64, Has, Clip;
  }

  lemma {:induction false} ArrSendable(T: Table, t: nat, s: bytes, p: nat, d: nat, e: nat)
    requires t < |T| && e <= d <= MAX_RECURSION + 1 && DecArr(T, t, s, p, d).Done? && ArrTyped(T, t, DecArr(T, t, s, p, d).v)
    ensures var a := DecArr(T, t, s, p, d).v; ArrOk(T, t, a, e) <==> FitsArr(T, t, a)
    decreases MAX_RECURSION + 1 - d, Rest(s, p), 4
  {
    hide DecU32, DecElems, Raw, ElemsTyped, ElemsOk, FitsElems;
    var r := DecU32(s, p);
    NoElemsSendable(T, t, e);
    if 0 < r.v <= INT32_MAX {
      if T[t].overlayable {
        assert TypeOk(|T|, T[t]);
        RawReturned(T, t, s, r.pos, r.v);
        RawSendable(T, t, Raw(s, r.pos, T[t].memSize, r.v), e);
      } else {
        ElemsReturned(T, t, s, r.pos, d, r.v);
        ElemsSendable(T, t, s, r.pos, d, r.v, e);
      }
    }
  }

  lemma NoElemsSendable(T: Table, t: nat, e: nat)
    requires t < |T|
    ensures ElemsTyped(T, t, []) && ElemsOk(T, t, [], e) && FitsElems(T, t, [])
  {
  }

  lemma {:induction false} RawSendable(T: Table, t: nat, es: seq<Value>, e: nat)
    requires t < |T| && ElemsTyped(T, t, es) && Width(T[t].kind) > 0
    ensures ElemsOk(T, t, es, e) && FitsElems(T, t, es)
    decreases es
  {
    if es != [] {
      RawSendable(T, t, es[1..], e);
    }
  }

  lemma {:induction false} ElemsSendable(T: Table, t: nat, s: bytes, p: nat, d: nat, n: nat, e: nat)
    requires t < |T| && e <= d <= MAX_RECURSION + 1
    requires DecElems(T, t, s, p, d, n).Done? && ElemsTyped(T, t, DecElems(T, t, s, p, d, n).v)
    ensures var es := DecElems(T, t, s, p, d, n).v; ElemsOk(T, t, es, e) <==> FitsElems(T, t, es)
    decreases MAX_RECURSION + 1 - d, Rest(s, p), 3, n
  {
    hide Dec, HasType, Encodable, Fits;
    if n > 0 {
      var r := Dec(T, t, s, p, d);
      var q := DecElems(T, t, s, r.pos, d, n - 1);
      assert ([r.v] + q.v)[0] == r.v && ([r.v] + q.v)[1..] == q.v;
      DecSendable(T, t, s, p, d, e);
      ElemsSendable(T, t, s, r.pos, d, n - 1, e);
    }
  }

  lemma {:induction false} FieldsSendable(T: Table, ms: seq<Member>, s: bytes, p: nat, d: nat, e: nat)
    requires MembersOk(|T|, ms) && e <= d <= MAX_RECURSION + 1
    requires DecFields(T, ms, s, p, d).Done? && FieldsTyped(T, ms, DecFields(T, ms, s, p, d).v)
    ensures var fs := DecFields(T, ms, s, p, d).v; FieldsOk(T, ms, fs, e) <==> FitsFields(T, ms, fs)
    decreases MAX_RECURSION + 1 - d, Rest(s, p), 6, |ms|
  {
    hide DecField, FieldTyped, FieldOk, FitsField;
    if ms != [] {
      var r := DecField(T, ms[0], s, p, d);
      var q := DecFields(T, ms[1..], s, r.pos, d);
      assert ([r.v] + q.v)[0] == r.v && ([r.v] + q.v)[1..] == q.v;
      FieldSendable(T, ms[0], s, p, d, e);
      FieldsSendable(T, ms[1..], s, r.pos, d, e);
    }
  }

  lemma {:induction false} FieldSendable(T: Table, m: Member, s: bytes, p: nat, d: nat, e: nat)
    requires m.ty < |T| && e <= d <= MAX_RECURSION + 1
    requires DecField(T, m, s, p, d).Done? && FieldTyped(T, m, DecField(T, m, s, p, d).v)
    ensures var f := DecField(T, m, s, p, d).v; FieldOk(T, m, f, e) <==> FitsField(T, m, f)
    decreases MAX_RECURSION + 1 - d, Rest(s, p), 5
  {
    hide Dec, DecArr, HasType, ArrTyped, Encodable, Fits, ArrOk, FitsArr;
    if m.isArray {
      ArrSendable(T, m.ty, s, p, d, e);
    } else {
      DecSendable(T, m.ty, s, p, d, e);
    }
  }
}
