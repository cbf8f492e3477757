/** Encodings delimit themselves: what follows a value does not change how it decodes. */
module Framing {
  import opened Bytes
  import opened Types
  import opened Wire
  import opened Parse
  import opened Survival
  import opened Faithful

  // ----- leaf types: a result read from s is read from every extension of s -----

  lemma SliceKept(s: bytes, z: bytes, p: nat, n: nat)
    requires s <= z && p + n <= |s|
    ensures z[p..p + n] == s[p..p + n]
  {
  }

  lemma FixedKept(s: bytes, z: bytes, p: nat, w: nat)
    requires s <= z
    ensures DecFixed(s, p, w).Done? ==> DecFixed(z, p, w) == DecFixed(s, p, w)
  {
    if p + w <= |s| {
      SliceKept(s, z, p, w);
    }
  }

  lemma NumbersKept(s: bytes, z: bytes, p: nat)
    requires s <= z
    ensures DecByte(s, p).Done? ==> DecByte(z, p) == DecByte(s, p)
    ensures DecU16(s, p).Done? ==> DecU16(z, p) == DecU16(s, p)
    ensures DecU32(s, p).Done? ==> DecU32(z, p) == DecU32(s, p)
    ensures DecU64(s, p).Done? ==> DecU64(z, p) == DecU64(s, p)
  {
    hide DecFixed;
    FixedKept(s, z, p, 2);
    FixedKept(s, z, p, 4);
    FixedKept(s, z, p, 8);
  }

  lemma StrKept(s: bytes, z: bytes, p: nat)
    requires s <= z
    ensures DecStr(s, p).Done? ==> DecStr(z, p) == DecStr(s, p)
  {
    hide DecU32;
    NumbersKept(s, z, p);
    var r := DecU32(s, p);
    if r.Done? && r.v <= INT32_MAX && r.pos + r.v <= |s| {
      SliceKept(s, z, r.pos, r.v);
    }
  }

  lemma GuidKept(s: bytes, z: bytes, p: nat)
    requires s <= z
    ensures DecGuid(s, p).Done? ==> DecGuid(z, p) == DecGuid(s, p)
  {
    hide DecU32, DecU16;
    NumbersKept(s, z, p);
    NumbersKept(s, z, p + 4);
    NumbersKept(s, z, p + 6);
    if p + 16 <= |s| {
      SliceKept(s, z, p + 8, 8);
    }
  }

  lemma NodeKept(s: bytes, z: bytes, p: nat)
    requires s <= z
    ensures DecNode(s, p).Done? ==> DecNode(z, p) == DecNode(s, p)
  {
    hide DecNodeTail;
    if p < |s| {
      NodeTailKept(s, z, p + 1, s[p] % 64);
    }
  }

  lemma NodeTailKept(s: bytes, z: bytes, p: nat, form: nat)
    requires s <= z
    ensures DecNodeTail(s, p, form).Done? ==> DecNodeTail(z, p, form) == DecNodeTail(s, p, form)
  {
    hide DecU16, DecU32, DecByte, DecStr, DecGuid;
    NumbersKept(s, z, p);
    NumbersKept(s, z, p + 1);
    NumbersKept(s, z, p + 2);
    StrKept(s, z, p + 2);
    GuidKept(s, z, p + 2);
  }

  lemma OptsKept(s: bytes, z: bytes, p: nat, on: bool)
    requires s <= z
    ensures DecOptStr(s, p, on).Done? ==> DecOptStr(z, p, on) == DecOptStr(s, p, on)
    ensures DecOpt16(s, p, on).Done? ==> DecOpt16(z, p, on) == DecOpt16(s, p, on)
    ensures DecOpt32(s, p, on).Done? ==> DecOpt32(z, p, on) == DecOpt32(s, p, on)
    ensures DecOpt64(s, p, on).Done? ==> DecOpt64(z, p, on) == DecOpt64(s, p, on)
  {
    hide DecU16, DecU32, DecU64, DecStr;
    NumbersKept(s, z, p);
    StrKept(s, z, p);
  }

  lemma ExpandedKept(s: bytes, z: bytes, p: nat)
    requires s <= z
    ensures DecExpanded(s, p).Done? ==> DecExpanded(z, p) == DecExpanded(s, p)
  {
    hide DecNode, DecStr, DecU32, Has;
    NodeKept(s, z, p);
    var r := DecNode(s, p);
    if p < |s| && r.Done? {
      StrKept(s, z, r.pos);
      NumbersKept(s, z, r.pos);
      var u := DecStr(s, r.pos);
      if u.Done? {
        NumbersKept(s, z, u.pos);
      }
    }
  }

  lemma LocalizedKept(s: bytes, z: bytes, p: nat)
    requires s <= z
    ensures DecLocalized(s, p).Done? ==> DecLocalized(z, p) == DecLocalized(s, p)
  {
    hide DecOptStr, Has;
    if p < |s| {
      OptsKept(s, z, p + 1, Has(s[p], 0));
      var r := DecOptStr(s, p + 1, Has(s[p], 0));
      if r.Done? {
        OptsKept(s, z, r.pos, Has(s[p], 1));
      }
    }
  }

  lemma DiagNumbersKept(s: bytes, z: bytes, p: nat, b: u8)
    requires s <= z
    ensures DecDiagNumbers(s, p, b).Done? ==> DecDiagNumbers(z, p, b) == DecDiagNumbers(s, p, b)
  {
    hide DecOpt32, Has;
    var r1 := DecOpt32(s, p, Has(b, 0));
    if r1.Done? {
      OptsKept(s, z, p, Has(b, 0));
      var r2 := DecOpt32(s, r1.pos, Has(b, 1));
      if r2.Done? {
        OptsKept(s, z, r1.pos, Has(b, 1));
        var r3 := DecOpt32(s, r2.pos, Has(b, 2));
        if r3.Done? {
          OptsKept(s, z, r2.pos, Has(b, 2));
          OptsKept(s, z, r3.pos, Has(b, 3));
        }
      }
    }
  }

  lemma {:induction false} DiagKept(s: bytes, z: bytes, p: nat, d: nat)
    requires s <= z && d <= MAX_RECURSION + 1
    ensures DecDiag(s, p, d).Done? ==> DecDiag(z, p, d) == DecDiag(s, p, d)
    decreases MAX_RECURSION + 1 - d
  {
    hide DecDiagFlat, Has;
    if p < |s| {
      var b := s[p];
      assert z[p] == b;
      DiagFlatKept(s, z, p + 1, b);
      var r := DecDiagFlat(s, p + 1, b);
      if r.Done? && d <= MAX_RECURSION {
        DiagKept(s, z, r.pos, d + 1);
      }
    }
  }

  lemma DiagFlatKept(s: bytes, z: bytes, p: nat, b: u8)
    requires s <= z
    ensures DecDiagFlat(s, p, b).Done? ==> DecDiagFlat(z, p, b) == DecDiagFlat(s, p, b)
  {
    hide DecDiagNumbers, DecOpt32, DecOptStr, Has;
    DiagNumbersKept(s, z, p, b);
    var r := DecDiagNumbers(s, p, b);
    if r.Done? {
      OptsKept(s, z, r.pos, Has(b, 4));
      var r5 := DecOptStr(s, r.pos, Has(b, 4));
      if r5.Done? {
        OptsKept(s, z, r5.pos, Has(b, 5));
      }
    }
  }

  lemma {:induction false} RawU32sKept(s: bytes, z: bytes, p: nat, n: nat)
    requires s <= z && p + 4 * n <= |s|
    ensures RawU32s(z, p, n) == RawU32s(s, p, n)
    decreases n
  {
    if n > 0 {
      SliceKept(s, z, p, 4);
      RawU32sKept(s, z, p + 4, n - 1);
    }
  }

  lemma DimsKept(s: bytes, z: bytes, p: nat, on: bool)
    requires s <= z
    ensures DecDims(s, p, on).Done? ==> DecDims(z, p, on) == DecDims(s, p, on)
  {
    hide DecU32;
    NumbersKept(s, z, p);
    var r := DecU32(s, p);
    if r.Done? && r.v <= INT32_MAX && r.pos + 4 * r.v <= |s| {
      RawU32sKept(s, z, r.pos, r.v);
    }
  }

  lemma {:induction false} RawKept(s: bytes, z: bytes, p: nat, w: nat, n: nat)
    requires s <= z && p + w * n <= |s|
    ensures p + w * n <= |z| && Raw(z, p, w, n) == Raw(s, p, w, n)
    decreases n
  {
    hide FromLE;
    if n > 0 {
      assert w * n == w + w * (n - 1);
      SliceKept(s, z, p, w);
      RawKept(s, z, p + w, w, n - 1);
    }
  }

  lemma StampsKept(s: bytes, z: bytes, p: nat, b: u8, x: Variant)
    requires s <= z
    ensures DecStamps(s, p, b, x).Done? ==> DecStamps(z, p, b, x) == DecStamps(s, p, b, x)
  {
    hide DecOpt16, DecOpt32, DecOpt64, Has, Clip;
    var r1 := DecOpt32(s, p, Has(b, 1));
    if r1.Done? {
      OptsKept(s, z, p, Has(b, 1));
      var r2 := DecOpt64(s, r1.pos, Has(b, 2));
      if r2.Done? {
        OptsKept(s, z, r1.pos, Has(b, 2));
        var r3 := DecOpt16(s, r2.pos, Has(b, 4));
        if r3.Done? {
          OptsKept(s, z, r2.pos, Has(b, 4));
          var r4 := DecOpt64(s, r3.pos, Has(b, 3));
          if r4.Done? {
            OptsKept(s, z, r3.pos, Has(b, 3));
            OptsKept(s, z, r4.pos, Has(b, 5));
          }
        }
      }
    }
  }

  // ----- the mutually recursive types -----

  /** What the shorter source gives, if anything, the longer one gives as well: value and position. */
  ghost predicate Kept<A>(r: Res<A>, r': Res<A>) {
    r.Done? ==> r' == r
  }

  lemma {:induction false} DecKept(T: Table, t: nat, s: bytes, z: bytes, p: nat, d: nat)
    requires t < |T| && d <= MAX_RECURSION + 1 && s <= z
    ensures Kept(Dec(T, t, s, p, d), Dec(T, t, z, p, d))
    decreases MAX_RECURSION + 1 - d, Rest(s, p), 2
  {
    hide DecFixed, DecStr, DecGuid, DecNode, DecExpanded, DecU16, DecU32, DecLocalized, DecDiag, DecExt, DecData, DecVariant, DecFields;
    var k := T[t].kind;
    if Width(k) > 0 { FixedKept(s, z, p, Width(k)); }
    else if IsText(k) { StrKept(s, z, p); }
    else if k == GUID { GuidKept(s, z, p); }
    else if k == NODEID { NodeKept(s, z, p); }
    else if k == EXPANDEDNODEID { ExpandedKept(s, z, p); }
    else if k == QUALIFIEDNAME { NumbersKept(s, z, p); StrKept(s, z, p + 2); }
    else if k == LOCALIZEDTEXT { LocalizedKept(s, z, p); }
    else if k == EXTENSIONOBJECT { ExtKept(T, s, z, p, d); }
    else if k == DATAVALUE { DataKept(T, s, z, p, d); }
    else if k == VARIANT { VariantKept(T, s, z, p, d); }
    else if k == DIAGNOSTICINFO { DiagKept(s, z, p, d); }
    else if k == STRUCTURE {
      if d <= MAX_RECURSION { FieldsKept(T, T[t].members, s, z, p, d + 1); }
    } else if k == UNION {
      NumbersKept(s, z, p);
      var r := DecU32(s, p);
      if d <= MAX_RECURSION && r.Done? && 0 < r.v <= |T[t].members| {
        DecKept(T, T[t].members[r.v - 1].ty, s, z, r.pos, d + 1);
      }
    }
  }

  lemma {:induction false} ExtKept(T: Table, s: bytes, z: bytes, p: nat, d: nat)
    requires d <= MAX_RECURSION + 1 && s <= z
    ensures Kept(DecExt(T, s, p, d), DecExt(T, z, p, d))
    decreases MAX_RECURSION + 1 - d, Rest(s, p), 0
  {
    hide DecNode, DecByte, DecStr, Dec;
    NodeKept(s, z, p);
    var r := DecNode(s, p);
    if r.Done? {
      NumbersKept(s, z, r.pos);
      StrKept(s, z, r.pos + 1);
      if DecByte(s, r.pos).Done? && Find(T, r.v).Some? {
        DecKept(T, Find(T, r.v).value, s, z, r.pos + 5, d);
      }
    }
  }

  lemma {:induction false} UnwrapKept(T: Table, s: bytes, z: bytes, p: nat, d: nat)
    requires d <= MAX_RECURSION + 1 && s <= z
    ensures Kept(DecUnwrap(T, s, p, d), DecUnwrap(T, z, p, d))
    decreases MAX_RECURSION + 1 - d, Rest(s, p), 1
  {
    hide DecNode, DecByte, DecStr, Dec, DecExt;
    ExtKept(T, s, z, p, d);
    NodeKept(s, z, p);
    var r := DecNode(s, p);
    if r.Done? {
      NumbersKept(s, z, r.pos);
      if DecByte(s, r.pos).Done? && Find(T, r.v).Some? {
        DecKept(T, Find(T, r.v).value, s, z, r.pos + 5, d);
      }
    }
  }

  lemma {:induction false} VariantKept(T: Table, s: bytes, z: bytes, p: nat, d: nat)
    requires d <= MAX_RECURSION + 1 && s <= z
    ensures Kept(DecVariant(T, s, p, d), DecVariant(T, z, p, d))
    decreases MAX_RECURSION + 1 - d, Rest(s, p), 0
  {
    hide Dec, DecArr, DecDims, DecUnwrap, Has;
    if p < |s| && d <= MAX_RECURSION {
      var b := s[p];
      assert z[p] == b;
      var k := b as int % 64 - 1;
      if 0 <= k <= DIAGNOSTICINFO {
        ArrKept(T, k, s, z, p + 1, d + 1);
        DecKept(T, k, s, z, p + 1, d + 1);
        UnwrapKept(T, s, z, p + 1, d + 1);
        var r := DecArr(T, k, s, p + 1, d + 1);
        if r.Done? {
          DimsKept(s, z, r.pos, Has(b, 6));
        }
      }
    }
  }

  lemma {:induction false} DataKept(T: Table, s: bytes, z: bytes, p: nat, d: nat)
    requires d <= MAX_RECURSION + 1 && s <= z
    ensures Kept(DecData(T, s, p, d), DecData(T, z, p, d))
    decreases MAX_RECURSION + 1 - d, Rest(s, p), 0
  {
    hide DecVariant, DecStamps, Has;
    if p < |s| && d <= MAX_RECURSION {
      var b := s[p];
      assert z[p] == b;
      VariantKept(T, s, z, p + 1, d + 1);
      StampsKept(s, z, p + 1, b, Empty);
      var r := DecVariant(T, s, p + 1, d + 1);
      if r.Done? {
        StampsKept(s, z, r.pos, b, r.v);
      }
    }
  }

  lemma {:induction false} ArrKept(T: Table, t: nat, s: bytes, z: bytes, p: nat, d: nat)
    requires t < |T| && d <= MAX_RECURSION + 1 && s <= z
    ensures Kept(DecArr(T, t, s, p, d), DecArr(T, t, z, p, d))
    decreases MAX_RECURSION + 1 - d, Rest(s, p), 4
  {
    hide DecU32, DecElems, Raw;
    NumbersKept(s, z, p);
    var r := DecU32(s, p);
    if r.Done? && 0 < r.v <= INT32_MAX {
      ElemsKept(T, t, s, z, r.pos, d, r.v);
      if r.pos + T[t].memSize * r.v <= |s| {
        RawKept(s, z, r.pos, T[t].memSize, r.v);
      }
    }
  }

  lemma {:induction false} ElemsKept(T: Table, t: nat, s: bytes, z: bytes, p: nat, d: nat, n: nat)
    requires t < |T| && d <= MAX_RECURSION + 1 && s <= z
    ensures Kept(DecElems(T, t, s, p, d, n), DecElems(T, t, z, p, d, n))
    decreases MAX_RECURSION + 1 - d, Rest(s, p), 3, n
  {
    hide Dec;
    if n > 0 {
      DecKept(T, t, s, z, p, d);
      var r := Dec(T, t, s, p, d);
      if r.Done? {
        ElemsKept(T, t, s, z, r.pos, d, n - 1);
      }
    }
  }

  lemma {:induction false} FieldsKept(T: Table, ms: seq<Member>, s: bytes, z: bytes, p: nat, d: nat)
    requires MembersOk(|T|, ms) && d <= MAX_RECURSION + 1 && s <= z
    ensures Kept(DecFields(T, ms, s, p, d), DecFields(T, ms, z, p, d))
    decreases MAX_RECURSION + 1 - d, Rest(s, p), 6, |ms|
  {
    hide DecField;
    if ms != [] {
      FieldKept(T, ms[0], s, z, p, d);
      var r := DecField(T, ms[0], s, p, d);
      if r.Done? {
        FieldsKept(T, ms[1..], s, z, r.pos, d);
      }
    }
  }

  lemma {:induction false} FieldKept(T: Table, m: Member, s: bytes, z: bytes, p: nat, d: nat)
    requires m.ty < |T| && d <= MAX_RECURSION + 1 && s <= z
    ensures Kept(DecField(T, m, s, p, d), DecField(T, m, z, p, d))
    decreases MAX_RECURSION + 1 - d, Rest(s, p), 5
  {
    hide Dec, DecArr;
    if m.isArray {
      ArrKept(T, m.ty, s, z, p, d);
    } else {
      DecKept(T, m.ty, s, z, p, d);
    }
  }

  // ----- positions: the one skip that is not checked leaves the source only in front of content that is not read -----

  /** Nothing is read for a value of the type: a structure whose members are all such structures. */
  predicate Hollow(T: Table, t: nat, d: nat)
    requires t < |T|
    decreases MAX_RECURSION + 1 - d, 0
  {
    T[t].kind == STRUCTURE && d <= MAX_RECURSION && HollowMembers(T, T[t].members, d + 1)
  }

  predicate HollowMembers(T: Table, ms: seq<Member>, d: nat)
    requires MembersOk(|T|, ms)
    decreases MAX_RECURSION + 1 - d, 1 + |ms|
  {
    ms != [] ==> !ms[0].isArray && Hollow(T, ms[0].ty, d) && HollowMembers(T, ms[1..], d)
  }

  /** A type that decoding reads nothing for deeper down is read nothing for higher up. */
  lemma {:induction false} HollowHigher(T: Table, t: nat, c: nat, d: nat)
    requires t < |T| && c <= d && Hollow(T, t, d)
    ensures Hollow(T, t, c)
    decreases MAX_RECURSION + 1 - d, 0
  {
    MembersHigher(T, T[t].members, c + 1, d + 1);
  }

  lemma {:induction false} MembersHigher(T: Table, ms: seq<Member>, c: nat, d: nat)
    requires MembersOk(|T|, ms) && c <= d && HollowMembers(T, ms, d)
    ensures HollowMembers(T, ms, c)
    decreases MAX_RECURSION + 1 - d, 1 + |ms|
  {
    if ms != [] {
      HollowHigher(T, ms[0].ty, c, d);
      MembersHigher(T, ms[1..], c, d);
    }
  }

  /** Nothing is read, at any position, or something is, and then from inside the source. */
  ghost predicate Reads<A>(hollow: bool, r: Res<A>, p: nat, n: nat) {
    if hollow then r.Done? && r.pos == p else r.Done? ==> p < n && p < r.pos
  }

  lemma {:induction false} DecReads(T: Table, t: nat, s: bytes, p: nat, d: nat)
    requires t < |T| && d <= MAX_RECURSION + 1
    ensures Reads(Hollow(T, t, d), Dec(T, t, s, p, d), p, |s|)
    decreases MAX_RECURSION + 1 - d, 0
  {
    hide DecFixed, DecStr, DecGuid, DecNode, DecExpanded, DecU16, DecU32, DecLocalized, DecDiag, DecExt, DecData, DecVariant,
         DecFields, HollowMembers;
    if T[t].kind == STRUCTURE {
      if d <= MAX_RECURSION {
        FieldsRead(T, T[t].members, s, p, d + 1);
      }
    } else {
      ComposedRead(T, s, p, d);
    }
  }

  lemma ComposedRead(T: Table, s: bytes, p: nat, d: nat)
    requires d <= MAX_RECURSION + 1
    ensures DecExt(T, s, p, d).Done? || DecData(T, s, p, d).Done? || DecVariant(T, s, p, d).Done? ==> p < |s|
  {
    hide DecNode, DecStamps, Dec, DecArr, DecUnwrap, Has;
  }

  lemma {:induction false} FieldsRead(T: Table, ms: seq<Member>, s: bytes, p: nat, d: nat)
    requires MembersOk(|T|, ms) && d <= MAX_RECURSION + 1
    ensures Reads(HollowMembers(T, ms, d), DecFields(T, ms, s, p, d), p, |s|)
    decreases MAX_RECURSION + 1 - d, 1 + |ms|
  {
    hide Dec, DecArr, Hollow;
    if ms != [] {
      var r := DecField(T, ms[0], s, p, d);
      if ms[0].isArray {
        ArrRead(T, ms[0].ty, s, p, d);
      } else {
        DecReads(T, ms[0].ty, s, p, d);
      }
      if r.Done? {
        FieldsRead(T, ms[1..], s, r.pos, d);
      }
    }
  }

  lemma ArrRead(T: Table, t: nat, s: bytes, p: nat, d: nat)
    requires t < |T| && d <= MAX_RECURSION + 1
    ensures DecArr(T, t, s, p, d).Done? ==> p < |s|
  {
    hide DecElems, Raw;
  }

  /** The type is the one the decoder's lookup finds for the id written in front of it. */
  predicate Found(T: Table, t: nat)
    requires t < |T|
  {
    Find(T, BinaryId(T[t])) == Some(t)
  }

  /** Some type that the lookup finds has nothing to read at depth d. */
  ghost predicate HollowTable(T: Table, d: nat) {
    exists t: nat | t < |T| :: Found(T, t) && Hollow(T, t, d)
  }

  /** How far a decode from depth d on can end beyond the source. */
  ghost function Overrun(T: Table, d: nat): nat {
    if HollowTable(T, d) then 4 else 0
  }

  lemma OverrunDeeper(T: Table, c: nat, d: nat)
    requires c <= d
    ensures Overrun(T, d) <= Overrun(T, c)
  {
    hide Hollow;
    if HollowTable(T, d) {
      var t: nat :| t < |T| && Found(T, t) && Hollow(T, t, d);
      HollowHigher(T, t, c, d);
    }
  }

  /** Nothing was read, or what was read ends at most k octets beyond the source. */
  ghost predicate Inside<A>(r: Res<A>, p: nat, n: nat, k: nat) {
    r.Done? ==> r.pos <= p || r.pos <= n + k
  }

  lemma {:induction false} DecInside(T: Table, t: nat, s: bytes, p: nat, d: nat)
    requires t < |T| && d <= MAX_RECURSION + 1
    ensures Inside(Dec(T, t, s, p, d), p, |s|, Overrun(T, d))
    decreases MAX_RECURSION + 1 - d, Rest(s, p), 2
  {
    hide DecFixed, DecStr, DecGuid, DecNode, DecExpanded, DecU16, DecU32, DecLocalized, DecDiag, DecExt, DecData, DecVariant,
         DecFields, Overrun;
    OverrunDeeper(T, d, d + 1);
    var k := T[t].kind;
    if k == EXTENSIONOBJECT { ExtInside(T, s, p, d); }
    else if k == DATAVALUE { DataInside(T, s, p, d); }
    else if k == VARIANT { VariantInside(T, s, p, d); }
    else if k == STRUCTURE {
      if d <= MAX_RECURSION { FieldsInside(T, T[t].members, s, p, d + 1); }
    } else if k == UNION {
      var r := DecU32(s, p);
      if d <= MAX_RECURSION && r.Done? && 0 < r.v <= |T[t].members| {
        DecInside(T, T[t].members[r.v - 1].ty, s, r.pos, d + 1);
      }
    }
  }

  /** Content at most four octets beyond the source, of a type the lookup finds. */
  lemma {:induction false} ContentInside(T: Table, id: NodeId, s: bytes, p: nat, d: nat)
    requires d <= MAX_RECURSION + 1 && Find(T, id).Some? && p <= |s| + 4
    ensures Inside(Dec(T, Find(T, id).value, s, p, d), 0, |s|, Overrun(T, d))
    decreases MAX_RECURSION + 1 - d, Rest(s, p), 3
  {
    hide Dec;
    var t := Find(T, id).value;
    DecInside(T, t, s, p, d);
    DecReads(T, t, s, p, d);
    assert id == BinaryId(T[t]);
    assert Hollow(T, t, d) ==> Found(T, t);
  }

  lemma {:induction false} ExtInside(T: Table, s: bytes, p: nat, d: nat)
    requires d <= MAX_RECURSION + 1
    ensures Inside(DecExt(T, s, p, d), p, |s|, Overrun(T, d))
    decreases MAX_RECURSION + 1 - d, Rest(s, p), 0
  {
    hide DecNode, DecByte, DecStr, Dec, Overrun;
    var r := DecNode(s, p);
    if r.Done? && DecByte(s, r.pos).Done? && Find(T, r.v).Some? {
      ContentInside(T, r.v, s, r.pos + 5, d);
    }
  }

  lemma {:induction false} VariantInside(T: Table, s: bytes, p: nat, d: nat)
    requires d <= MAX_RECURSION + 1
    ensures Inside(DecVariant(T, s, p, d), p, |s|, Overrun(T, d + 1))
    decreases MAX_RECURSION + 1 - d, Rest(s, p), 0
  {
    hide Dec, DecArr, DecDims, DecUnwrap, Has, Overrun;
    if p < |s| && d <= MAX_RECURSION {
      var k := s[p] as int % 64 - 1;
      if 0 <= k <= DIAGNOSTICINFO {
        ArrInside(T, k, s, p + 1, d + 1);
        DecInside(T, k, s, p + 1, d + 1);
        UnwrapInside(T, s, p + 1, d + 1);
        var r := DecArr(T, k, s, p + 1, d + 1);
        if r.Done? {
          DimsInside(s, r.pos, Has(s[p], 6));
        }
      }
    }
  }

  lemma DimsInside(s: bytes, p: nat, on: bool)
    ensures Inside(DecDims(s, p, on), p, |s|, 0)
  {
  }

  lemma {:induction false} UnwrapInside(T: Table, s: bytes, p: nat, d: nat)
    requires d <= MAX_RECURSION + 1
    ensures Inside(DecUnwrap(T, s, p, d), p, |s|, Overrun(T, d))
    decreases MAX_RECURSION + 1 - d, Rest(s, p), 1
  {
    hide DecNode, DecByte, Dec, DecExt, Overrun;
    ExtInside(T, s, p, d);
    var r := DecNode(s, p);
    if r.Done? && DecByte(s, r.pos).Done? && Find(T, r.v).Some? {
      ContentInside(T, r.v, s, r.pos + 5, d);
    }
  }

  lemma {:induction false} DataInside(T: Table, s: bytes, p: nat, d: nat)
    requires d <= MAX_RECURSION + 1
    ensures Inside(DecData(T, s, p, d), p, |s|, Overrun(T, d + 1))
    decreases MAX_RECURSION + 1 - d, Rest(s, p), 0
  {
    hide DecVariant, DecStamps, Has, Overrun;
    OverrunDeeper(T, d + 1, d + 2);
    if p < |s| && d <= MAX_RECURSION {
      VariantInside(T, s, p + 1, d + 1);
      StampsInside(s, p + 1, s[p], Empty);
      var r := DecVariant(T, s, p + 1, d + 1);
      if r.Done? {
        StampsInside(s, r.pos, s[p], r.v);
      }
    }
  }

  lemma StampsInside(s: bytes, p: nat, b: u8, x: Variant)
    ensures Inside(DecStamps(s, p, b, x), p, |s|, 0)
  {
    hide DecU16, DecU32, DecU64, Has, Clip;
  }

  lemma {:induction false} ArrInside(T: Table, t: nat, s: bytes, p: nat, d: nat)
    requires t < |T| && d <= MAX_RECURSION + 1
    ensures Inside(DecArr(T, t, s, p, d), p, |s|, Overrun(T, d))
    decreases MAX_RECURSION + 1 - d, Rest(s, p), 4
  {
    hide DecU32, DecElems, Raw, Overrun;
    var r := DecU32(s, p);
    if r.Done? && 0 < r.v <= INT32_MAX {
      ElemsInside(T, t, s, r.pos, d, r.v);
    }
  }

  lemma {:induction false} ElemsInside(T: Table, t: nat, s: bytes, p: nat, d: nat, n: nat)
    requires t < |T| && d <= MAX_RECURSION + 1
    ensures Inside(DecElems(T, t, s, p, d, n), p, |s|, Overrun(T, d))
    decreases MAX_RECURSION + 1 - d, Rest(s, p), 3, n
  {
    hide Dec, Overrun;
    if n > 0 {
      DecInside(T, t, s, p, d);
      var r := Dec(T, t, s, p, d);
      if r.Done? {
        ElemsInside(T, t, s, r.pos, d, n - 1);
      }
    }
  }

  lemma {:induction false} FieldsInside(T: Table, ms: seq<Member>, s: bytes, p: nat, d: nat)
    requires MembersOk(|T|, ms) && d <= MAX_RECURSION + 1
    ensures Inside(DecFields(T, ms, s, p, d), p, |s|, Overrun(T, d))
    decreases MAX_RECURSION + 1 - d, Rest(s, p), 6, |ms|
  {
    hide DecField, Overrun;
    if ms != [] {
      FieldInside(T, ms[0], s, p, d);
      var r := DecField(T, ms[0], s, p, d);
      if r.Done? {
        FieldsInside(T, ms[1..], s, r.pos, d);
      }
    }
  }

  lemma {:induction false} FieldInside(T: Table, m: Member, s: bytes, p: nat, d: nat)
    requires m.ty < |T| && d <= MAX_RECURSION + 1
    ensures Inside(DecField(T, m, s, p, d), p, |s|, Overrun(T, d))
    decreases MAX_RECURSION + 1 - d, Rest(s, p), 5
  {
    hide Dec, DecArr, Overrun;
    if m.isArray {
      ArrInside(T, m.ty, s, p, d);
    } else {
      DecInside(T, m.ty, s, p, d);
    }
  }

  /** A decode that starts inside the source and ends beyond it. */
  ghost predicate Overruns(T: Table, t: nat, s: bytes, p: nat, d: nat) {
    && t < |T| && d <= MAX_RECURSION + 1 && p <= |s|
    && Dec(T, t, s, p, d).Done? && Dec(T, t, s, p, d).pos > |s|
  }

  /** An ExtensionObject that ends after the encoding byte, at the end of any source: for every hollow type that is
      found, it decodes to four octets beyond the source. */
  lemma PastTheEnd(T: Table, t: nat, pre: bytes, d: nat)
    requires t < |T| && Found(T, t) && Hollow(T, t, d)
    ensures var s := pre + (EncNode(BinaryId(T[t])) + [1]);
            && d <= MAX_RECURSION
            && Dec(T, EXTENSIONOBJECT, s, |pre|, d).Done? && Dec(T, EXTENSIONOBJECT, s, |pre|, d).pos == |s| + 4
            && DecUnwrap(T, s, |pre|, d).Done? && DecUnwrap(T, s, |pre|, d).pos == |s| + 4
  {
    hide Dec, DecExt, DecUnwrap, EncNodeMasked, DecNode, DecByte, HollowMembers, At;
    var a := EncNode(BinaryId(T[t]));
    var s := pre + (a + [1]);
    AtBack(pre, a + [1]);
    AtSplit(s, |pre|, a, [1]);
    NodeAt(s, |pre|, BinaryId(T[t]), false, false);
    ByteAt(s, |pre| + |a|, 1);
    ContentChain(T, t, s, |pre|, d, |pre| + |a|);
    DecReads(T, t, s, |pre| + |a| + 5, d);
    UnfoldDec(T, EXTENSIONOBJECT, s, |pre|, d);
  }

  lemma AtBack(a: bytes, b: bytes)
    ensures At(a + b, |a|, b)
  {
  }

  /** Decoding at depth d stays inside the source exactly for the tables whose found types all have something to read. */
  lemma OverrunExact(T: Table, d: nat)
    ensures HollowTable(T, d) <==> exists t: nat, s: bytes, p: nat :: Overruns(T, t, s, p, d)
  {
    hide Dec, Hollow, EncNodeMasked;
    if HollowTable(T, d) {
      var t: nat :| t < |T| && Found(T, t) && Hollow(T, t, d);
      PastTheEnd(T, t, [], d);
      assert Overruns(T, EXTENSIONOBJECT, [] + (EncNode(BinaryId(T[t])) + [1]), 0, d);
    } else if exists t: nat, s: bytes, p: nat :: Overruns(T, t, s, p, d) {
      var t: nat, s: bytes, p: nat :| Overruns(T, t, s, p, d);
      DecInside(T, t, s, p, d);
    }
  }

  /** A table with a structure without members, as FilterOperand is one. */
  function FilterTable(): Table {
    BuiltinsOnly() + [DataType(STRUCTURE, NodeId(0, Numeric(589)), 591, 1, false, [])]
  }

  lemma FilterIsHollow()
    ensures Found(FilterTable(), 25) && Hollow(FilterTable(), 25, 0)
  {
    hide FindFrom;
    var T := FilterTable();
    assert T[25].binId == 591 && T[25].typeId.ns == 0 && T[25].kind == STRUCTURE && T[25].members == [];
    assert forall i | 0 <= i < 25 :: T[i].binId == 0;
  }

  // ----- self-delimiting encodings -----

  /** A successful decode is the same in every extension of the source, wherever it ends. */
  lemma Extend(T: Table, t: nat, s: bytes, x: bytes, p: nat, d: nat)
    requires t < |T| && d <= MAX_RECURSION + 1 && Dec(T, t, s, p, d).Done?
    ensures Dec(T, t, s + x, p, d) == Dec(T, t, s, p, d)
  {
    hide Dec;
    DecKept(T, t, s, s + x, p, d);
  }
}
