/** The decoder: a cursor over the source and a nesting counter. Every read is checked against the end
    of the source; decoders that combine several reads go on after a failed one and fail at the end. */
module Decoder {
  import opened Bytes
  import opened Types
  import opened Wire
  import opened Parse
  import opened EncodeState

  class Reader {
    const src: bytes
    var pos: nat
    var depth: nat

    /** The contract of every decoder: it succeeds exactly when decoding from the old position is
        defined, with its value and end position, and leaves the nesting depth as it was. */
    twostate predicate Got<A>(new r: Res<A>, ret: Status, new v: A)
      reads this
    {
      && !ret.LimitsExceeded? && (ret.Good? <==> r.Done?) && (ret.Good? ==> r == Done(v, pos))
      && old(pos) <= pos && depth == old(depth)
    }

    constructor (src: bytes, pos: nat)
      ensures this.src == src && this.pos == pos && depth == 0
    {
      this.src := src;
      this.pos := pos;
      this.depth := 0;
    }

    // ----- leaf types -----

    method DecodeByte() returns (ret: Status, b: u8)
      modifies this
      ensures Got(DecByte(src, old(pos)), ret, b)
    {
      if pos + 1 > |src| {
        return Bad, 0;
      }
      ret, b := Good, src[pos];
      pos := pos + 1;
    }

    /** The fixed-width integers, least significant octet first. */
    method DecodeFixed(w: nat) returns (ret: Status, n: nat)
      modifies this
      ensures Got(DecFixed(src, old(pos), w), ret, n)
    {
      if pos + w > |src| {
        return Bad, 0;
      }
      ret, n := Good, 0;
      var i := w;
      while i > 0
        invariant 0 <= i <= w && pos == old(pos) && depth == old(depth) && pos + w <= |src|
        invariant n == FromLE(src[pos + i..pos + w])
      {
        i := i - 1;
        n := 256 * n + src[pos + i];
        assert src[pos + i..pos + w][1..] == src[pos + i + 1..pos + w];
      }
      pos := pos + w;
    }

    method DecodeU16() returns (ret: Status, n: u16)
      modifies this
      ensures Got(DecU16(src, old(pos)), ret, n)
    {
      Pow256Values();
      var m;
      ret, m := DecodeFixed(2);
      n := if ret.Good? then m else 0;
    }

    method DecodeU32() returns (ret: Status, n: u32)
      modifies this
      ensures Got(DecU32(src, old(pos)), ret, n)
    {
      Pow256Values();
      var m;
      ret, m := DecodeFixed(4);
      n := if ret.Good? then m else 0;
    }

    method DecodeU64() returns (ret: Status, n: u64)
      modifies this
      ensures Got(DecU64(src, old(pos)), ret, n)
    {
      Pow256Values();
      var m;
      ret, m := DecodeFixed(8);
      n := if ret.Good? then m else 0;
    }

    method DecodeStr() returns (ret: Status, x: Str)
      modifies this
      ensures Got(DecStr(src, old(pos)), ret, x)
    {
      hide DecU32;
      x := NoStr;
      var n;
      ret, n := DecodeU32();
      if !ret.Good? || n > INT32_MAX {
        return;
      }
      if n == 0 {
        x := Str([]);
        assert src[pos..pos] == [];
        return;
      }
      if pos + n / 32 > |src| || |src| < pos + n {
        return Bad, NoStr;
      }
      x := Str(src[pos..pos + n]);
      pos := pos + n;
    }

    method DecodeGuid() returns (ret: Status, g: Guid)
      modifies this
      ensures Got(DecGuid(src, old(pos)), ret, g)
    {
      hide DecU32, DecU16;
      g := Guid(0, 0, 0, [0, 0, 0, 0, 0, 0, 0, 0]);
      var more, d1, d2, d3;
      ret, d1 := DecodeU32();
      more, d2 := DecodeU16();
      ret := Or(ret, more);
      more, d3 := DecodeU16();
      ret := Or(ret, more);
      if pos + 8 > |src| {
        return Bad, g;
      }
      g := Guid(d1, d2, d3, src[pos..pos + 8]);
      pos := pos + 8;
    }

    method DecodeNode() returns (ret: Status, id: NodeId)
      modifies this
      ensures Got(DecNode(src, old(pos)), ret, id)
    {
      hide DecByte, DecNodeTail;
      id := NodeId(0, Numeric(0));
      var b;
      ret, b := DecodeByte();
      if ret.Good? {
        ret, id := DecodeNodeTail(b % 64);
      }
    }

    method DecodeNodeTail(form: nat) returns (ret: Status, id: NodeId)
      modifies this
      ensures Got(DecNodeTail(src, old(pos), form), ret, id)
    {
      hide DecByte, DecU16, DecU32, DecStr, DecGuid;
      id := NodeId(0, Numeric(0));
      ret := Good;
      var more;
      if form == 0 {
        var n;
        ret, n := DecodeByte();
        id := NodeId(0, Numeric(n));
      } else if form == 1 {
        var ns, n;
        ret, ns := DecodeByte();
        more, n := DecodeU16();
        ret, id := Or(ret, more), NodeId(ns, Numeric(n));
      } else if form == 2 {
        var ns, n;
        ret, ns := DecodeU16();
        more, n := DecodeU32();
        ret, id := Or(ret, more), NodeId(ns, Numeric(n));
      } else if form == 3 || form == 5 {
        var ns, x;
        ret, ns := DecodeU16();
        more, x := DecodeStr();
        ret, id := Or(ret, more), NodeId(ns, if form == 3 then StringId(x) else ByteStringId(x));
      } else if form == 4 {
        var ns, g;
        ret, ns := DecodeU16();
        more, g := DecodeGuid();
        ret, id := Or(ret, more), NodeId(ns, GuidId(g));
      } else {
        ret := Bad;
      }
    }

    method DecodeExpanded() returns (ret: Status, v: Value)
      modifies this
      ensures Got(DecExpanded(src, old(pos)), ret, v)
    {
      hide DecNode, DecStr, DecU32, Has;
      v := DecimalV;
      if pos >= |src| {
        return Bad, v;
      }
      var encoding := src[pos];
      var id, uri, server, more := NodeId(0, Numeric(0)), NoStr, 0, Good;
      ret, id := DecodeNode();
      if Has(encoding, 7) {
        id := id.(ns := 0);
        more, uri := DecodeStr();
        ret := Or(ret, more);
      }
      if Has(encoding, 6) {
        more, server := DecodeU32();
        ret := Or(ret, more);
      }
      v := ExpandedV(id, uri, server);
    }

    method DecodeName() returns (ret: Status, ns: u16, name: Str)
      modifies this
      ensures Got(match DecU16(src, old(pos)) case Fail => Fail case Done(n, q) =>
                    match DecStr(src, q) case Fail => Fail case Done(x, e) => Done((n, x), e), ret, (ns, name))
    {
      hide DecU16, DecStr;
      var more;
      ret, ns := DecodeU16();
      more, name := DecodeStr();
      ret := Or(ret, more);
    }

    method DecodeLocalized() returns (ret: Status, v: Value)
      modifies this
      ensures Got(DecLocalized(src, old(pos)), ret, v)
    {
      hide DecByte, DecStr, Has;
      var encoding, locale, local, more := 0, NoStr, NoStr, Good;
      ret, encoding := DecodeByte();
      if Has(encoding, 0) {
        more, locale := DecodeStr();
        ret := Or(ret, more);
      }
      if Has(encoding, 1) {
        more, local := DecodeStr();
        ret := Or(ret, more);
      }
      v := LocalizedV(locale, local);
    }

    // ----- optional parts -----

    method DecodeOpt16(on: bool) returns (ret: Status, x: Option<u16>)
      modifies this
      ensures Got(DecOpt16(src, old(pos), on), ret, x)
    {
      hide DecU16;
      ret, x := Good, None;
      if on {
        var n;
        ret, n := DecodeU16();
        x := Some(n);
      }
    }

    method DecodeOpt32(on: bool) returns (ret: Status, x: Option<u32>)
      modifies this
      ensures Got(DecOpt32(src, old(pos), on), ret, x)
    {
      hide DecU32;
      ret, x := Good, None;
      if on {
        var n;
        ret, n := DecodeU32();
        x := Some(n);
      }
    }

    method DecodeOpt64(on: bool) returns (ret: Status, x: Option<u64>)
      modifies this
      ensures Got(DecOpt64(src, old(pos), on), ret, x)
    {
      hide DecU64;
      ret, x := Good, None;
      if on {
        var n;
        ret, n := DecodeU64();
        x := Some(n);
      }
    }

    method DecodeOptStr(on: bool) returns (ret: Status, x: Option<Str>)
      modifies this
      ensures Got(DecOptStr(src, old(pos), on), ret, x)
    {
      hide DecStr;
      ret, x := Good, None;
      if on {
        var t;
        ret, t := DecodeStr();
        x := Some(t);
      }
    }

    // ----- DiagnosticInfo -----

    method DecodeDiagNumbers(b: u8) returns (ret: Status, g: Diag)
      modifies this
      ensures Got(DecDiagNumbers(src, old(pos), b), ret, g)
    {
      hide DecOpt32, Has;
      var more, symbolicId, uri, text, locale;
      ret, symbolicId := DecodeOpt32(Has(b, 0));
      more, uri := DecodeOpt32(Has(b, 1));
      ret := Or(ret, more);
      more, text := DecodeOpt32(Has(b, 2));
      ret := Or(ret, more);
      more, locale := DecodeOpt32(Has(b, 3));
      ret := Or(ret, more);
      g := Diag(symbolicId, uri, text, locale, None, None, None);
    }

    method DecodeDiag() returns (ret: Status, g: Diag)
      requires depth <= MAX_RECURSION + 1
      modifies this
      ensures Got(DecDiag(src, old(pos), old(depth)), ret, g)
      decreases MAX_RECURSION + 1 - depth
    {
      hide DecByte, DecDiagNumbers, DecOpt32, DecOptStr, Has;
      g := Diag(None, None, None, None, None, None, None);
      var b, more, info, status;
      ret, b := DecodeByte();
      if !ret.Good? {
        return;
      }
      ret, g := DecodeDiagNumbers(b);
      more, info := DecodeOptStr(Has(b, 4));
      ret := Or(ret, more);
      more, status := DecodeOpt32(Has(b, 5));
      ret := Or(ret, more);
      g := g.(additionalInfo := info, innerStatus := status);
      if Has(b, 6) {
        if depth > MAX_RECURSION {
          return Bad, g;
        }
        depth := depth + 1;
        var inner;
        more, inner := DecodeDiag();
        ret, g := Or(ret, more), g.(inner := Some(inner));
        depth := depth - 1;
      }
    }

    // ----- arrays -----

    /** A 32-bit integer array, copied without decoding its elements. */
    method DecodeDims(on: bool) returns (ret: Status, dims: seq<u32>)
      modifies this
      ensures Got(DecDims(src, old(pos), on), ret, dims)
    {
      hide DecU32, RawU32s;
      ret, dims := Good, [];
      if !on {
        return;
      }
      var n;
      ret, n := DecodeU32();
      if !ret.Good? || n > INT32_MAX {
        return;
      }
      if n == 0 {
        NoU32s(src, pos);
        return;
      }
      if pos + (4 * n) / 32 > |src| || |src| < pos + 4 * n {
        return Bad, [];
      }
      dims := RawU32s(src, pos, n);
      pos := pos + 4 * n;
    }

    method DecodeArr(T: Table, t: nat) returns (ret: Status, a: Arr)
      requires t < |T| && depth <= MAX_RECURSION + 1
      modifies this
      ensures Got(DecArr(T, t, src, old(pos), old(depth)), ret, a)
      decreases MAX_RECURSION + 1 - depth, Rest(src, pos), 4
    {
      hide DecU32, DecElems, Raw;
      a := NoArr;
      var n;
      ret, n := DecodeU32();
      if !ret.Good? || n > INT32_MAX {
        return;
      }
      if n == 0 {
        a := Arr([]);
        return;
      }
      if pos + (T[t].memSize * n) / 32 > |src| {
        return Bad, NoArr;
      }
      if T[t].overlayable {
        if |src| < pos + T[t].memSize * n {
          return Bad, NoArr;
        }
        a := Arr(Raw(src, pos, T[t].memSize, n));
        pos := pos + T[t].memSize * n;
      } else {
        var es;
        ret, es := DecodeElems(T, t, n);
        a := Arr(es);
      }
    }

    method DecodeElems(T: Table, t: nat, n: nat) returns (ret: Status, es: seq<Value>)
      requires t < |T| && depth <= MAX_RECURSION + 1
      modifies this
      ensures Got(DecElems(T, t, src, old(pos), old(depth), n), ret, es)
      decreases MAX_RECURSION + 1 - depth, Rest(src, pos), 3
    {
      hide Dec;
      ghost var all := DecElems(T, t, src, pos, depth, n);
      ret, es := Good, [];
      var i := 0;
      ContStart(all);
      while i < n
        invariant i <= n && old(pos) <= pos && depth == old(depth) && ret.Good?
        invariant all == Cont(es, DecElems(T, t, src, pos, depth, n - i))
      {
        var v;
        ghost var p := pos;
        ret, v := Decode(T, t);
        if !ret.Good? {
          return;
        }
        ContStep(es, v, DecElems(T, t, src, pos, depth, n - i - 1));
        es := es + [v];
        i := i + 1;
      }
      assert es + [] == es;
    }

    // ----- ExtensionObject, Variant, DataValue -----

    method DecodeExt(T: Table) returns (ret: Status, x: ExtObj)
      requires depth <= MAX_RECURSION + 1
      modifies this
      ensures Got(DecExt(T, src, old(pos), old(depth)), ret, x)
      decreases MAX_RECURSION + 1 - depth, Rest(src, pos), 0
    {
      hide DecNode, DecByte, DecStr, Dec;
      x := Missing;
      var id, encoding, more;
      ret, id := DecodeNode();
      more, encoding := DecodeByte();
      ret := Or(ret, more);
      if !ret.Good? {
        return;
      }
      if encoding == 1 {
        ret, x := DecodeContent(T, id);
      } else if encoding == 0 {
        x := NoBody(id);
      } else if encoding == 2 {
        var body;
        ret, body := DecodeStr();
        x := Encoded(id, true, body);
      } else {
        ret := Bad;
      }
    }

    method DecodeContent(T: Table, id: NodeId) returns (ret: Status, x: ExtObj)
      requires depth <= MAX_RECURSION + 1
      modifies this
      ensures Got(match Find(T, id)
                  case None =>
                    (match DecStr(src, old(pos)) case Fail => Fail case Done(b, e) => Done(Encoded(id, false, b), e))
                  case Some(ty) =>
                    (match Dec(T, ty, src, old(pos) + 4, old(depth)) case Fail => Fail case Done(v, e) => Done(Decoded(ty, v), e)),
                  ret, x)
      decreases MAX_RECURSION + 1 - depth, Rest(src, pos), 3
    {
      hide DecStr, Dec;
      match Find(T, id)
      case None =>
        var body;
        ret, body := DecodeStr();
        x := Encoded(id, false, body);
      case Some(ty) =>
        pos := pos + 4;
        var v;
        ret, v := Decode(T, ty);
        x := Decoded(ty, v);
    }

    method DecodeUnwrap(T: Table) returns (ret: Status, x: Variant)
      requires depth <= MAX_RECURSION + 1
      modifies this
      ensures Got(DecUnwrap(T, src, old(pos), old(depth)), ret, x)
      decreases MAX_RECURSION + 1 - depth, Rest(src, pos), 1
    {
      hide DecNode, DecByte, DecExt, Dec;
      x := Empty;
      var oldPos := pos;
      var id, encoding;
      ret, id := DecodeNode();
      if !ret.Good? {
        return;
      }
      ret, encoding := DecodeByte();
      if !ret.Good? {
        return;
      }
      if encoding == 1 && Find(T, id).Some? {
        pos := pos + 4;
        var v;
        ret, v := Decode(T, Find(T, id).value);
        x := Scalar(Find(T, id).value, v);
      } else {
        pos := oldPos;
        var e;
        ret, e := DecodeExt(T);
        x := Scalar(EXTENSIONOBJECT, ExtV(e));
      }
    }

    method DecodeVariant(T: Table) returns (ret: Status, x: Variant)
      requires depth <= MAX_RECURSION + 1
      modifies this
      ensures Got(DecVariant(T, src, old(pos), old(depth)), ret, x)
      decreases MAX_RECURSION + 1 - depth, Rest(src, pos), 0
    {
      hide DecByte, DecArr, DecDims, DecUnwrap, Dec, Has;
      x := Empty;
      var encoding;
      ret, encoding := DecodeByte();
      if !ret.Good? || encoding == 0 {
        return;
      }
      var isArray := Has(encoding, 7);
      if encoding % 64 == 0 || encoding % 64 - 1 > DIAGNOSTICINFO {
        return Bad, x;
      }
      var kind: nat := encoding % 64 - 1;
      if (kind == VARIANT && !isArray) || depth > MAX_RECURSION {
        return Bad, x;
      }
      depth := depth + 1;
      if isArray {
        var arr, dims, more;
        ret, arr := DecodeArr(T, kind);
        more, dims := DecodeDims(Has(encoding, 6));
        ret, x := Or(ret, more), Array(kind, arr, dims);
      } else if kind != EXTENSIONOBJECT {
        var v;
        ret, v := Decode(T, kind);
        x := Scalar(kind, v);
      } else {
        ret, x := DecodeUnwrap(T);
      }
      depth := depth - 1;
    }

    method DecodePico(on: bool) returns (ret: Status, x: Option<u16>)
      modifies this
      ensures Got(match DecOpt16(src, old(pos), on) case Fail => Fail case Done(n, q) => Done(Clip(n), q), ret, x)
    {
      hide DecOpt16;
      ret, x := DecodeOpt16(on);
      if x.Some? && x.value > MAX_PICO {
        x := Some(MAX_PICO);
      }
    }

    method DecodeStamps(encoding: u8, value: Variant) returns (ret: Status, dv: DataValue)
      modifies this
      ensures Got(DecStamps(src, old(pos), encoding, value), ret, dv)
    {
      hide DecOpt16, DecOpt32, DecOpt64, Has, Clip;
      var more, status, sourceTime, sourcePico, serverTime, serverPico;
      ret, status := DecodeOpt32(Has(encoding, 1));
      more, sourceTime := DecodeOpt64(Has(encoding, 2));
      ret := Or(ret, more);
      more, sourcePico := DecodePico(Has(encoding, 4));
      ret := Or(ret, more);
      more, serverTime := DecodeOpt64(Has(encoding, 3));
      ret := Or(ret, more);
      more, serverPico := DecodePico(Has(encoding, 5));
      ret := Or(ret, more);
      dv := DataValue(Has(encoding, 0), value, status, sourceTime, sourcePico, serverTime, serverPico);
    }

    method DecodeData(T: Table) returns (ret: Status, dv: DataValue)
      requires depth <= MAX_RECURSION + 1
      modifies this
      ensures Got(DecData(T, src, old(pos), old(depth)), ret, dv)
      decreases MAX_RECURSION + 1 - depth, Rest(src, pos), 0
    {
      hide DecByte, DecVariant, DecStamps, Has;
      dv := DataValue(false, Empty, None, None, None, None, None);
      var encoding, more;
      ret, encoding := DecodeByte();
      if !ret.Good? {
        return;
      }
      if depth > MAX_RECURSION {
        return Bad, dv;
      }
      depth := depth + 1;
      var value := Empty;
      if Has(encoding, 0) {
        ret, value := DecodeVariant(T);
      }
      more, dv := DecodeStamps(encoding, value);
      ret := Or(ret, more);
      depth := depth - 1;
    }

    // ----- structures and unions -----

    method DecodeStruct(T: Table, ms: seq<Member>) returns (ret: Status, fs: seq<Field>)
      requires MembersOk(|T|, ms) && depth <= MAX_RECURSION + 1
      modifies this
      ensures Got(if old(depth) > MAX_RECURSION then Fail else DecFields(T, ms, src, old(pos), old(depth) + 1), ret, fs)
      decreases MAX_RECURSION + 1 - depth, Rest(src, pos), 1
    {
      hide DecField;
      fs := [];
      if depth > MAX_RECURSION {
        return Bad, fs;
      }
      depth := depth + 1;
      ret := Good;
      ghost var all := DecFields(T, ms, src, pos, depth);
      var i := 0;
      assert ms[0..] == ms;
      ContStart(all);
      while i < |ms| && ret.Good?
        invariant i <= |ms| && old(pos) <= pos && depth == old(depth) + 1 && !ret.LimitsExceeded?
        invariant ret.Good? ==> all == Cont(fs, DecFields(T, ms[i..], src, pos, depth))
        invariant ret.Bad? ==> all.Fail?
      {
        var f;
        assert ms[i..][1..] == ms[i + 1..];
        ret, f := DecodeField(T, ms[i]);
        if ret.Good? {
          ContStep(fs, f, DecFields(T, ms[i + 1..], src, pos, depth));
        }
        fs := fs + [f];
        i := i + 1;
      }
      if ret.Good? {
        assert ms[i..] == [] && fs + [] == fs;
      }
      depth := depth - 1;
    }

    method DecodeField(T: Table, m: Member) returns (ret: Status, f: Field)
      requires m.ty < |T| && depth <= MAX_RECURSION + 1
      modifies this
      ensures Got(DecField(T, m, src, old(pos), old(depth)), ret, f)
      decreases MAX_RECURSION + 1 - depth, Rest(src, pos), 5
    {
      hide Dec, DecArr;
      if m.isArray {
        var a;
        ret, a := DecodeArr(T, m.ty);
        f := Many(a);
      } else {
        var v;
        ret, v := Decode(T, m.ty);
        f := One(v);
      }
    }

    method DecodeUnion(T: Table, t: nat) returns (ret: Status, v: Value)
      requires t < |T| && T[t].kind == UNION && depth <= MAX_RECURSION + 1
      modifies this
      ensures Got(Dec(T, t, src, old(pos), old(depth)), ret, v)
      decreases MAX_RECURSION + 1 - depth, Rest(src, pos), 1
    {
      hide DecU32;
      v := DecimalV;
      if depth > MAX_RECURSION {
        return Bad, v;
      }
      var sel;
      ret, sel := DecodeU32();
      if !ret.Good? {
        return;
      }
      if sel == 0 {
        v := UnionV(0, None);
        return;
      }
      if sel - 1 >= |T[t].members| {
        return Bad, v;
      }
      depth := depth + 1;
      var x;
      ret, x := Decode(T, T[t].members[sel - 1].ty);
      v := UnionV(sel, Some(x));
      depth := depth - 1;
    }

    // ----- jump table -----

    method Decode(T: Table, t: nat) returns (ret: Status, v: Value)
      requires t < |T| && depth <= MAX_RECURSION + 1
      modifies this
      ensures Got(Dec(T, t, src, old(pos), old(depth)), ret, v)
      decreases MAX_RECURSION + 1 - depth, Rest(src, pos), 2
    {
      hide DecFixed, DecStr, DecGuid, DecNode, DecExpanded, DecU16, DecLocalized, DecExt, DecData, DecVariant, DecDiag, DecFields;
      var k := T[t].kind;
      if Width(k) > 0 {
        var n;
        ret, n := DecodeFixed(Width(k));
        v := Fixed(if k == BOOLEAN && n > 0 then 1 else n);
      } else if IsText(k) {
        var x;
        ret, x := DecodeStr();
        v := Text(x);
      } else if k == GUID {
        var g;
        ret, g := DecodeGuid();
        v := GuidV(g);
      } else if k == NODEID {
        var id;
        ret, id := DecodeNode();
        v := NodeV(id);
      } else if k == EXPANDEDNODEID {
        ret, v := DecodeExpanded();
      } else if k == QUALIFIEDNAME {
        var ns, name;
        ret, ns, name := DecodeName();
        v := NameV(ns, name);
      } else if k == LOCALIZEDTEXT {
        ret, v := DecodeLocalized();
      } else if k == EXTENSIONOBJECT {
        var x;
        ret, x := DecodeExt(T);
        v := ExtV(x);
      } else if k == DATAVALUE {
        var x;
        ret, x := DecodeData(T);
        v := DataV(x);
      } else if k == VARIANT {
        var x;
        ret, x := DecodeVariant(T);
        v := VariantV(x);
      } else if k == DIAGNOSTICINFO {
        var g;
        ret, g := DecodeDiag();
        v := DiagV(g);
      } else if k == STRUCTURE {
        var fs;
        ret, fs := DecodeStruct(T, T[t].members);
        v := StructV(fs);
      } else if k == UNION {
        ret, v := DecodeUnion(T, t);
      } else {
        ret, v := Bad, DecimalV;
      }
    }
  }

  /** The rest of a sequence, after the items already decoded. */
  function Cont<A>(done: seq<A>, rest: Res<seq<A>>): Res<seq<A>> {
    match rest
    case Fail => Fail
    case Done(vs, e) => Done(done + vs, e)
  }

  lemma ContStart<A>(rest: Res<seq<A>>)
    ensures Cont([], rest) == rest
  {
    if rest.Done? {
      assert [] + rest.v == rest.v;
    }
  }

  lemma ContStep<A>(done: seq<A>, v: A, rest: Res<seq<A>>)
    ensures Cont(done, Cont([v], rest)) == Cont(done + [v], rest)
  {
    if rest.Done? {
      assert done + ([v] + rest.v) == done + [v] + rest.v;
    }
  }

  lemma NoU32s(s: bytes, p: nat)
    requires p <= |s|
    ensures RawU32s(s, p, 0) == []
  {
  }

  /** Decodes one value of type t at an offset; on success the offset moves to the value's end. */
  method DecodeBinary(T: Table, t: nat, src: bytes, offset: nat) returns (ret: Status, v: Value, end: nat)
    requires t < |T|
    ensures !ret.LimitsExceeded?
    ensures ret.Good? <==> Dec(T, t, src, offset, 0).Done?
    ensures ret.Good? ==> Dec(T, t, src, offset, 0) == Done(v, end)
    ensures !ret.Good? ==> end == offset
  {
    hide Dec;
    var reader := new Reader(src, offset);
    ret, v := reader.Decode(T, t);
    end := if ret.Good? then reader.pos else offset;
  }
}
