/** NodeId forms, and skipping content whose type is unknown. */
module Forms {
  import opened Bytes
  import opened Types
  import opened Wire
  import opened Parse
  import opened Survival
  import opened Faithful
  import opened SizeOracle

  lemma StrLength(s: bytes, p: nat)
    ensures DecStr(s, p).Done? ==> DecStr(s, p).pos == p + |EncStr(DecStr(s, p).v)|
  {
  }

  /** The encoder picks the shortest octets the decoder maps to a NodeId: whatever decodes to id
      is at least as long as id's encoding. */
  lemma ShortestForm(s: bytes, p: nat)
    ensures DecNode(s, p).Done? ==> p + |EncNode(DecNode(s, p).v)| <= DecNode(s, p).pos
  {
    hide DecNodeTail, NodeTail, Mark;
    if p < |s| {
      TailShortest(s, p + 1, s[p] % 64);
    }
  }

  lemma TailShortest(s: bytes, p: nat, form: nat)
    ensures var r := DecNodeTail(s, p, form); r.Done? ==> p + |NodeTail(r.v)| <= r.pos
  {
    hide DecStr, EncStr, DecU16, DecU32, LE, DecGuid, DecByte;
    StrLength(s, p + 2);
  }

  /** Every NodeId form round-trips, with or without the two flag bits an ExpandedNodeId adds. */
  lemma NodeRoundTrip(id: NodeId, hasUri: bool, hasServer: bool, x: bytes)
    requires NodeOk(id)
    ensures var b := EncNodeMasked(id, hasUri, hasServer);
            DecNode(b + x, 0) == Done(id, |b|)
  {
    hide EncNodeMasked, DecNode;
    var b := EncNodeMasked(id, hasUri, hasServer);
    assert (b + x)[0..|b|] == b;
    NodeAt(b + x, 0, id, hasUri, hasServer);
  }

  /** An ExpandedNodeId returns with its uri and server index; a uri replaces the namespace index. */
  lemma ExpandedRoundTrip(id: NodeId, uri: Str, server: u32, x: bytes)
    requires NodeOk(id) && StrOk(uri)
    ensures var b := EncExpanded(id, uri, server);
            DecExpanded(b + x, 0) ==
            Done(if HasUri(uri) then ExpandedV(id.(ns := 0), uri, server) else ExpandedV(id, NoStr, server), |b|)
  {
    hide EncExpanded, DecExpanded;
    var b := EncExpanded(id, uri, server);
    assert (b + x)[0..|b|] == b;
    ExpandedAt(b + x, 0, id, uri, server);
  }

  lemma UnknownChain(U: Table, id: NodeId, s: bytes, p: nat, d: nat, q: nat)
    requires d <= MAX_RECURSION + 1 && Find(U, id).None?
    requires DecNode(s, p) == Done(id, q) && DecByte(s, q) == Done(1, q + 1)
    ensures DecExt(U, s, p, d) ==
            match DecStr(s, q + 1) case Fail => Fail case Done(body, e) => Done(Encoded(id, false, body), e)
  {
    hide DecNode, DecByte, DecStr;
  }

  lemma BodyAt(s: bytes, p: nat, len: nat, body: bytes)
    requires At(s, p, LE(len, 4) + body) && len <= INT32_MAX
    ensures len == |body| ==> DecStr(s, p) == Done(Str(body), p + 4 + |body|)
    ensures len != |body| && DecStr(s, p).Done? ==> DecStr(s, p).pos == p + 4 + len && DecStr(s, p).v != Str(body)
  {
    hide LE, DecU32;
    Pow256Values();
    AtSplit(s, p, LE(len, 4), body);
    FixedAt(s, p, len, 4);
  }

  /** A decoder U that does not know the type takes the content as octets: it ends where a decoder
      that knows it ends, exactly when the size oracle was exact for the content. */
  lemma SkipUnknown(T: Table, U: Table, ty: nat, v: Value, e: nat, s: bytes, p: nat, d: nat)
    requires ty < |T| && HasType(T, ty, v) && ContentOk(T, ty, v, e) && d <= MAX_RECURSION + 1
    requires At(s, p, EncExt(T, Decoded(ty, v))) && Find(U, BinaryId(T[ty])).None?
    ensures var q := p + |EncExt(T, Decoded(ty, v))|;
            && (Slack(T, ty, v) == 0 ==>
                  DecExt(U, s, p, d) == Done(Encoded(BinaryId(T[ty]), false, Str(Enc(T, ty, v))), q))
            && (Slack(T, ty, v) != 0 && DecExt(U, s, p, d).Done? ==> DecExt(U, s, p, d).pos != q)
            && (ContentSurvives(T, ty, v, Rest(s, q), d) ==>
                  DecExt(T, s, p, d) == Done(Decoded(ty, Norm(T, v)), q))
  {
    hide At, Enc, Size, Survives, Norm, LE, EncNodeMasked, DecStr, DecNode, DecByte, DecExt, Slack, Encodable;
    var id, len, body := BinaryId(T[ty]), Size(T, ty, v), Enc(T, ty, v);
    SizeExact(T, ty, v, e);
    ContentRoundTrip(T, ty, v, e, s, p, d);
    AtSplit(s, p, EncExtHead(T, ty, len), body);
    ExtHeadAt(T, ty, len, s, p);
    UnknownChain(U, id, s, p, d, p + |EncNode(id)|);
    assert EncExtHead(T, ty, len) + body == (EncNode(id) + [1]) + (LE(len, 4) + body);
    AtSplit(s, p, EncNode(id) + [1], LE(len, 4) + body);
    BodyAt(s, p + |EncNode(id)| + 1, len, body);
  }
}
