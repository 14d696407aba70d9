/** Properties of TSIG generation and verification: which record fields are
    signed, when Verify rejects, what it does to the message, and that
    verifying a freshly signed message succeeds. */
module TsigProperties {
  import opened Wire
  import opened Message
  import opened Tsig

  /** The projection copies exactly the nine signed fields: two records have
      the same TSIG variables if and only if they agree on those fields. */
  lemma VariablesAreTheSignedFields(a: TsigFields, b: TsigFields)
    ensures Variables(a) == Variables(b) <==> AgreeOnSignedFields(a, b)
  {
  }

  /** Records that differ only in MACSize, MAC, OrigId (or in the header's
      type and rdlength) yield the same buffer for any message. */
  lemma BufIgnoresUnsignedFields(p: Primitives, a: TsigFields, b: TsigFields, m: MsgValue)
    requires AgreeOnSignedFields(a, b)
    ensures TsigToBuf(p, a, m) == TsigToBuf(p, b, m)
  {
    VariablesAreTheSignedFields(a, b);
  }

  /** A corollary of TsigToBuf's contract, split at the seam: the buffer's
      length is the sum of the two packed lengths, so no scratch byte beyond
      the packed variables survives the trim, and the packed message comes
      first. */
  lemma BufIsMessageThenVariables(p: Primitives, rr: TsigFields, m: MsgValue)
    requires TsigToBuf(p, rr, m).Some?
    ensures |TsigToBuf(p, rr, m).value| == |p.PackMsg(m).value| + |p.PackStruct(Variables(rr)).value|
    ensures TsigToBuf(p, rr, m).value[..|p.PackMsg(m).value|] == p.PackMsg(m).value
    ensures TsigToBuf(p, rr, m).value[|p.PackMsg(m).value|..] == p.PackStruct(Variables(rr)).value
  {
    var msgbuf, vars := p.PackMsg(m).value, p.PackStruct(Variables(rr)).value;
    assert TsigToBuf(p, rr, m).value == msgbuf + vars;
  }

  /** The secret's encoding, the message layout and the TSIG type are all
      checked before any digest is taken: in each rejecting case the verdict
      and the message left behind do not depend on the packers or the HMAC. */
  lemma RejectsBeforeDigest(p: Primitives, q: Primitives, rr: TsigFields, m: MsgValue, secret: Bytes)
    requires q.PackBase64 == p.PackBase64
    requires p.PackBase64(secret).None? || |m.Extra| == 0 || m.Extra[|m.Extra| - 1].Hdr.Rrtype != TypeTSIG
    ensures VerifyOutcome(p, rr, m, secret) == VerifyOutcome(q, rr, m, secret) == Verdict(false, m)
  {
  }

  /** Verify's verdict does not depend on the header id the message arrives
      with: it is replaced by OrigId before the buffer is rebuilt, so past the
      checks the message left behind does not depend on it either. */
  lemma VerdictIgnoresArrivingId(p: Primitives, rr: TsigFields, m: MsgValue, secret: Bytes, id: uint16)
    ensures VerifyOutcome(p, rr, m.(Id := id), secret).Accepted == VerifyOutcome(p, rr, m, secret).Accepted
    ensures p.PackBase64(secret).Some? && EndsWithTsig(m) ==>
      VerifyOutcome(p, rr, m.(Id := id), secret).Msg == VerifyOutcome(p, rr, m, secret).Msg
  {
    if EndsWithTsig(m) {
      assert Unsigned(rr, m.(Id := id)) == Unsigned(rr, m);
    }
  }

  /** Round trip: sign a message, append a TSIG record to its additional
      section, let a forwarder rewrite the header id, and Verify with the
      signed record accepts and leaves the message as it was when signed,
      provided the two secret decoders agree on the secret. */
  lemma {:induction false} GenerateThenVerify(
    p: Primitives, rr: TsigFields, m: MsgValue, secret: Bytes, t: Record, id: uint16)
    requires GenerateOutcome(p, rr, m, secret).Some?
    requires t.Hdr.Rrtype == TypeTSIG
    requires p.PackBase64(secret) == Some(p.UnpackBase64(secret))
    ensures var signed := GenerateOutcome(p, rr, m, secret).value;
            VerifyOutcome(p, signed, m.(Extra := m.Extra + [t], Id := id), secret) == Verdict(true, m)
  {
    var signed := GenerateOutcome(p, rr, m, secret).value;
    var sent := m.(Extra := m.Extra + [t], Id := id);
    assert Unsigned(signed, sent) == m;
    BufIgnoresUnsignedFields(p, signed, rr, m);
  }

  /** Consequence of the pointer copy in Verify, which strips the caller's
      own TSIG record: a second Verify of the same signed message with the same record and
      secret, as a caller retrying would do, rejects it when no other TSIG
      record precedes it, although the first Verify accepted. */
  lemma {:induction false} RetryAfterVerifyRejects(
    p: Primitives, rr: TsigFields, m: MsgValue, secret: Bytes, t: Record)
    requires GenerateOutcome(p, rr, m, secret).Some?
    requires t.Hdr.Rrtype == TypeTSIG
    requires p.PackBase64(secret) == Some(p.UnpackBase64(secret))
    requires m.Extra == []
    ensures var signed := GenerateOutcome(p, rr, m, secret).value;
            var first := VerifyOutcome(p, signed, m.(Extra := [t]), secret);
            first.Accepted && !VerifyOutcome(p, signed, first.Msg, secret).Accepted
  {
    GenerateThenVerify(p, rr, m, secret, t, m.Id);
    assert m.(Extra := m.Extra + [t], Id := m.Id) == m.(Extra := [t]);
  }

  /** The whole exchange on the objects: Generate fills in `rr`, the caller
      appends a TSIG record to `msg`, a forwarder sets a new id, and the
      copying Verify accepts whenever Generate succeeded. */
  method SignForwardVerify(rr: TsigRR, msg: Msg, p: Primitives, secret: Bytes, t: Record, id: uint16)
    returns (generated: bool, verified: bool)
    requires t.Hdr.Rrtype == TypeTSIG
    requires p.PackBase64(secret) == Some(p.UnpackBase64(secret))
    modifies rr, msg
    ensures generated == GenerateOutcome(p, old(rr.Value()), old(msg.Value()), secret).Some?
    ensures generated ==> verified
  {
    ghost var m := msg.Value();
    ghost var f := rr.Value();
    generated := rr.Generate(msg, p, secret);
    if !generated {
      return generated, false;
    }
    msg.AppendExtra(t);
    msg.SetId(id);
    GenerateThenVerify(p, f, m, secret, t, id);
    verified := rr.VerifyOnCopy(msg, p, secret);
  }
}
