/** TSIG generation and verification (RFC 2845, with the algorithm names of
    RFC 4635): the buffer over which the MAC is computed, Generate, which
    fills in the MAC of a TSIG record, and Verify, which recomputes and
    compares it. */
module Tsig {
  import opened Wire
  import opened Message

  /** An HMAC-MD5 digest: always 16 bytes. */
  type Md5Digest = s: Bytes | |s| == 16 witness seq(16, _ => 0 as uint8)

  /** The fields of a TSIG record, as a value. */
  datatype TsigFields = TsigFields(
    Hdr: RRHeader,
    Algorithm: string,
    TimeSigned: uint64,
    Fudge: uint16,
    MACSize: uint16,
    MAC: Bytes,
    OrigId: uint16,
    Error: uint16,
    OtherLen: uint16,
    OtherData: Bytes)

  /** The "TSIG variables" of section 3.4.2 of RFC 2845: the record's owner
      name, class and ttl, then its rdata without MACSize, MAC and OrigId. */
  datatype TsigWireFmt = TsigWireFmt(
    Name: string,
    Class: uint16,
    Ttl: uint32,
    Algorithm: string,
    TimeSigned: uint64,
    Fudge: uint16,
    Error: uint16,
    OtherLen: uint16,
    OtherData: Bytes)

  /** The collaborators this core calls but does not define: packing a
      message, packing the TSIG variables, the two base64 routines applied to
      the secret (Generate keys the HMAC with UnpackBase64, which reports no
      error; Verify with PackBase64, which may fail) and HMAC-MD5 with a key. */
  datatype Primitives = Primitives(
    PackMsg: MsgValue -> Option<Bytes>,
    PackStruct: TsigWireFmt -> Option<Bytes>,
    UnpackBase64: Bytes -> Bytes,
    PackBase64: Bytes -> Option<Bytes>,
    HmacMD5: (Bytes, Bytes) -> Md5Digest)

  /** Two records agree on everything the TSIG variables are built from: the
      owner name, class and ttl of the header, and the rdata other than
      MACSize, MAC and OrigId. */
  predicate AgreeOnSignedFields(a: TsigFields, b: TsigFields)
  {
    a.Hdr.Name == b.Hdr.Name && a.Hdr.Class == b.Hdr.Class && a.Hdr.Ttl == b.Hdr.Ttl &&
    a.Algorithm == b.Algorithm && a.TimeSigned == b.TimeSigned && a.Fudge == b.Fudge &&
    a.Error == b.Error && a.OtherLen == b.OtherLen && a.OtherData == b.OtherData
  }

  /** The record whose signed fields are `w` and whose other fields are the
      given header type and rdlength, MACSize, MAC and OrigId. */
  function Rebuild(w: TsigWireFmt, rrtype: uint16, rdlength: uint16, macSize: uint16, mac: Bytes, origId: uint16): TsigFields
  {
    TsigFields(RRHeader(w.Name, rrtype, w.Class, w.Ttl, rdlength), w.Algorithm, w.TimeSigned,
               w.Fudge, macSize, mac, origId, w.Error, w.OtherLen, w.OtherData)
  }

  /** The projection of a TSIG record onto its TSIG variables. It loses
      nothing but MACSize, MAC, OrigId and the header's type and rdlength:
      given those back, the record is rebuilt exactly. */
  function Variables(rr: TsigFields): (w: TsigWireFmt)
    ensures Rebuild(w, rr.Hdr.Rrtype, rr.Hdr.Rdlength, rr.MACSize, rr.MAC, rr.OrigId) == rr
  {
    TsigWireFmt(rr.Hdr.Name, rr.Hdr.Class, rr.Hdr.Ttl, rr.Algorithm, rr.TimeSigned,
                rr.Fudge, rr.Error, rr.OtherLen, rr.OtherData)
  }

  /** The size of the scratch buffer the variables are packed into. */
  const ScratchSize: nat := 4096

  /** A freshly made scratch buffer: ScratchSize zero bytes. */
  function Scratch(): (buf: Bytes)
    ensures |buf| == ScratchSize
    ensures forall i :: 0 <= i < |buf| ==> buf[i] == 0
  {
    seq(ScratchSize, _ => 0 as uint8)
  }

  /** `buf` with `data` written over it from offset `off`, one byte at a time. */
  function CopyInto(buf: Bytes, off: nat, data: Bytes): (r: Bytes)
    requires off + |data| <= |buf|
    ensures |r| == |buf|
    decreases |data|
  {
    if data == [] then buf else CopyInto(buf[off := data[0]], off + 1, data[1..])
  }

  /** After CopyInto, `data` sits at `off` and every byte outside it is the
      buffer's own. */
  lemma {:induction false} CopyIntoPlacesData(buf: Bytes, off: nat, data: Bytes)
    requires off + |data| <= |buf|
    ensures var r := CopyInto(buf, off, data);
      r[off..off + |data|] == data && r[..off] == buf[..off] &&
      r[off + |data|..] == buf[off + |data|..]
    decreases |data|
  {
    if data != [] {
      var buf' := buf[off := data[0]];
      CopyIntoPlacesData(buf', off + 1, data[1..]);
      var r := CopyInto(buf, off, data);
      assert r == CopyInto(buf', off + 1, data[1..]);
      assert r[..off + 1] == buf'[..off + 1];
      assert r[off..off + |data|] == [r[off]] + r[off + 1..off + |data|];
    }
  }

  /** packStruct(w, buf, off): writes the packed variables into `buf` from
      offset `off` and returns the new buffer with the offset just past them;
      it fails when the encoding fails or does not fit in the buffer. */
  function PackStructInto(p: Primitives, w: TsigWireFmt, buf: Bytes, off: nat): (r: Option<(Bytes, nat)>)
    requires off <= |buf|
    ensures r.Some? <==> p.PackStruct(w).Some? && off + |p.PackStruct(w).value| <= |buf|
    ensures r.Some? ==>
      var (buf', n) := r.value;
      |buf'| == |buf| && n == off + |p.PackStruct(w).value| &&
      buf'[off..n] == p.PackStruct(w).value && buf'[..off] == buf[..off]
  {
    match p.PackStruct(w)
    case None => None
    case Some(enc) =>
      if off + |enc| <= |buf| then
        CopyIntoPlacesData(buf, off, enc);
        Some((CopyInto(buf, off, enc), off + |enc|))
      else None
  }

  /** tsigToBuf: the bytes the MAC is computed over. The variables are packed
      into a fresh scratch buffer, which is then cut to the packed length; the
      packed message comes first and the variables follow. It fails if either
      packing fails. */
  function TsigToBuf(p: Primitives, rr: TsigFields, m: MsgValue): (r: Option<Bytes>)
    ensures r.Some? <==>
      p.PackStruct(Variables(rr)).Some? && |p.PackStruct(Variables(rr)).value| <= ScratchSize &&
      p.PackMsg(m).Some?
    ensures r.Some? ==> r.value == p.PackMsg(m).value + p.PackStruct(Variables(rr)).value
  {
    var tsig := Variables(rr);
    match PackStructInto(p, tsig, Scratch(), 0)
    case None => None
    case Some((buf, n)) =>
      var trimmed := buf[..n];
      match p.PackMsg(m)
      case None => None
      case Some(msgbuf) => Some(msgbuf + trimmed)
  }

  /** What Generate makes of the record: None when the buffer cannot be
      built; otherwise the record with its MAC computed over the buffer with
      the decoded secret, its MACSize set to the MAC's length and its OrigId
      set to the message id. */
  function GenerateOutcome(p: Primitives, rr: TsigFields, m: MsgValue, secret: Bytes): (r: Option<TsigFields>)
    ensures r.Some? <==> TsigToBuf(p, rr, m).Some?
    ensures r.Some? ==>
      r.value.MAC == p.HmacMD5(p.UnpackBase64(secret), TsigToBuf(p, rr, m).value) &&
      r.value.MACSize as int == |r.value.MAC| == 16 &&
      r.value.OrigId == m.Id &&
      Variables(r.value) == Variables(rr) && r.value.Hdr == rr.Hdr
  {
    var rawsecret := p.UnpackBase64(secret);
    match TsigToBuf(p, rr, m)
    case None => None
    case Some(buf) =>
      var mac := p.HmacMD5(rawsecret, buf);
      Some(rr.(MAC := mac, MACSize := Uint16Of(|mac|), OrigId := m.Id))
  }

  /** The message as it was when it was signed, as Verify reconstructs it:
      the id restored from OrigId and the trailing TSIG record removed. */
  function Unsigned(rr: TsigFields, m: MsgValue): (u: MsgValue)
    requires |m.Extra| >= 1
    ensures u.Id == rr.OrigId && u.Extra + [m.Extra[|m.Extra| - 1]] == m.Extra
    ensures u.(Id := m.Id, Extra := m.Extra) == m
  {
    m.(Id := rr.OrigId, Extra := m.Extra[..|m.Extra| - 1])
  }

  /** The result of Verify and the message it leaves behind. */
  datatype Verdict = Verdict(Accepted: bool, Msg: MsgValue)

  /** What Verify does: it rejects, leaving the message alone, when the
      secret does not decode or the message does not end with a TSIG record;
      otherwise it rewrites the message in place to its unsigned form, and
      accepts exactly when the buffer can be built from that form and its MAC
      under the decoded secret is the record's MAC. */
  function VerifyOutcome(p: Primitives, rr: TsigFields, m: MsgValue, secret: Bytes): (v: Verdict)
    ensures v.Accepted <==>
      p.PackBase64(secret).Some? && EndsWithTsig(m) &&
      TsigToBuf(p, rr, Unsigned(rr, m)).Some? &&
      p.HmacMD5(p.PackBase64(secret).value, TsigToBuf(p, rr, Unsigned(rr, m)).value) == rr.MAC
    ensures v.Msg == if p.PackBase64(secret).Some? && EndsWithTsig(m) then Unsigned(rr, m) else m
  {
    match p.PackBase64(secret)
    case None => Verdict(false, m)
    case Some(rawsecret) =>
      if |m.Extra| < 1 then Verdict(false, m)
      else if m.Extra[|m.Extra| - 1].Hdr.Rrtype != TypeTSIG then Verdict(false, m)
      else
        var m2 := m.(Id := rr.OrigId, Extra := m.Extra[..|m.Extra| - 1]);
        match TsigToBuf(p, rr, m2)
        case None => Verdict(false, m2)
        case Some(buf) => Verdict(p.HmacMD5(rawsecret, buf) == rr.MAC, m2)
  }

  /** A TSIG resource record, whose MAC fields Generate fills in place. */
  class TsigRR {
    var Hdr: RRHeader
    var Algorithm: string
    var TimeSigned: uint64
    var Fudge: uint16
    var MACSize: uint16
    var MAC: Bytes
    var OrigId: uint16
    var Error: uint16
    var OtherLen: uint16
    var OtherData: Bytes

    /** The record's current fields as a value. */
    function Value(): TsigFields
      reads this
    {
      TsigFields(Hdr, Algorithm, TimeSigned, Fudge, MACSize, MAC, OrigId, Error, OtherLen, OtherData)
    }

    constructor (f: TsigFields)
      ensures Value() == f
    {
      Hdr, Algorithm, TimeSigned, Fudge := f.Hdr, f.Algorithm, f.TimeSigned, f.Fudge;
      MACSize, MAC, OrigId := f.MACSize, f.MAC, f.OrigId;
      Error, OtherLen, OtherData := f.Error, f.OtherLen, f.OtherData;
    }

    /** Computes the MAC of `msg` and stores MAC, MACSize and OrigId in this
        record. On failure to build the buffer nothing changes. The message is
        only read. */
    method Generate(msg: Msg, p: Primitives, secret: Bytes) returns (ok: bool)
      modifies this
      ensures unchanged(msg)
      ensures ok == GenerateOutcome(p, old(Value()), msg.Value(), secret).Some?
      ensures ok ==> Value() == GenerateOutcome(p, old(Value()), msg.Value(), secret).value
      ensures ok ==> Value() == old(Value()).(MAC := MAC, MACSize := MACSize, OrigId := msg.Id)
      ensures !ok ==> Value() == old(Value())
    {
      var rawsecret := p.UnpackBase64(secret);
      var buf := TsigToBuf(p, Value(), msg.Value());
      if buf.None? {
        return false;
      }
      var h := p.HmacMD5(rawsecret, buf.value);
      MAC := h;
      MACSize := Uint16Of(|MAC|);
      OrigId := msg.Id;
      return true;
    }

    /** Verifies the MAC of `msg` against this record. The message is the
        caller's own, not a copy: once the secret decodes and the message ends
        with a TSIG record, its id is overwritten with OrigId and that last
        record is removed, whatever the verdict. This record is only read. */
    method Verify(msg: Msg, p: Primitives, secret: Bytes) returns (ok: bool)
      modifies msg
      ensures ok == VerifyOutcome(p, Value(), old(msg.Value()), secret).Accepted
      ensures msg.Value() == VerifyOutcome(p, Value(), old(msg.Value()), secret).Msg
      ensures p.PackBase64(secret).Some? && EndsWithTsig(old(msg.Value())) ==>
        msg.Id == OrigId && msg.Extra == old(msg.Extra)[..|old(msg.Extra)| - 1]
      ensures !(p.PackBase64(secret).Some? && EndsWithTsig(old(msg.Value()))) ==>
        !ok && unchanged(msg)
    {
      var rawsecret := p.PackBase64(secret);
      if rawsecret.None? {
        return false;
      }
      var msg2 := msg;
      if |msg2.Extra| < 1 {
        return false;
      }
      var tsigrr := msg2.Extra[|msg2.Extra| - 1];
      if tsigrr.Hdr.Rrtype != TypeTSIG {
        return false;
      }
      msg2.Id := OrigId;
      msg2.Extra := msg2.Extra[..|msg2.Extra| - 1];
      var buf := TsigToBuf(p, Value(), msg2.Value());
      if buf.None? {
        return false;
      }
      var h := p.HmacMD5(rawsecret.value, buf.value);
      return h == MAC;
    }

    /** Verify as its "deep copy" note intends: the checks run on a copy of
        the message, so the caller's message is left as it was. */
    method VerifyOnCopy(msg: Msg, p: Primitives, secret: Bytes) returns (ok: bool)
      ensures unchanged(msg)
      ensures ok == VerifyOutcome(p, Value(), msg.Value(), secret).Accepted
    {
      var copy := new Msg(msg.Value());
      ok := Verify(copy, p, secret);
    }
  }
}
