# TSIG signing and verification, modelled in Dafny

This project models `tsig.go` of a Go DNS library. That file implements the
transaction signatures of RFC 2845, section 3.4, with the algorithm names of
RFC 4635. It has three parts:

- `tsigToBuf` builds the bytes that get digested: the packed message followed
  by the packed "TSIG variables" of section 3.4.2 of RFC 2845. The variables
  are the record's owner name, class and ttl, plus its rdata without `MACSize`,
  `MAC` and `OrigId`.
- `Generate` computes HMAC-MD5 over those bytes with the base64-decoded secret.
  It then stores `MAC`, `MACSize` and `OrigId` in the TSIG record in place.
- `Verify` checks that the message ends with a TSIG record. It restores the
  header id from `OrigId`, strips that last record, rebuilds the bytes and
  compares the recomputed MAC with the record's.

Files:

- `wire.dfy` (module `Wire`): fixed-width integers, bytes, the record header
  and the records.
- `msg.dfy` (module `Message`): the message class `Msg`. It has a header id and
  sections, and the id and the additional section (`Extra`) are updated in
  place.
- `tsig.dfy` (module `Tsig`): the TSIG record class `TsigRR` with its
  `Generate` and `Verify` methods, and the functions that specify them.
- `tsig_properties.dfy` (module `TsigProperties`): lemmas relating the
  operations, including the generate-then-verify round trip.

The library's collaborators are not part of this model. These are message
packing (`msg.Pack`), struct packing (`packStruct`), the two base64 routines
applied to the secret (`unpackBase64` in Generate, `packBase64` in Verify) and
HMAC-MD5. Each is a function-valued field of the datatype `Tsig.Primitives`,
which every operation takes as a parameter. The model assumes the following
about them:

- Message packing and struct packing may fail, so each returns an `Option`.
  Each is a function of its argument alone.
- `packBase64` may fail and `unpackBase64` may not, as in the source.
- An HMAC-MD5 digest is always 16 bytes.
- `packStruct(tsig, buf, off)` is `Tsig.PackStructInto`:
  - the encoding of the variables does not depend on the buffer or the offset;
  - it is written as one contiguous run starting at `off`;
  - the bytes before `off` and after the run are left alone;
  - the call fails exactly when the encoding fails or overruns the buffer.
- `TsigProperties.GenerateThenVerify`, `TsigProperties.RetryAfterVerifyRejects`
  and `TsigProperties.SignForwardVerify` also require
  `PackBase64(secret) == Some(UnpackBase64(secret))`. This says the keys
  Generate and Verify derive from the secret are the same.

`Generate` and `Verify` are methods on the class `TsigRR`. Each is proved
against a function of the old state: `GenerateOutcome` for `Generate` and
`VerifyOutcome` for `Verify`. The lemmas are stated about those functions.

`Verify`'s own comments say it works on a copy of the message: "copy the
mesg, strip (and check) the tsig rr" (tsig.go:91) and "TODO deep copy"
(tsig.go:99). The code does not. `msg2 := msg` (tsig.go:99) copies only the
pointer. So `Verify` overwrites the caller's
header id and removes its last additional record whenever the secret
decodes and the message ends with a TSIG record, whatever the verdict.
`Tsig.TsigRR.Verify` has `modifies msg` and states this effect. The finding
below covers its consequence, and `Tsig.TsigRR.VerifyOnCopy` is the
corrected form.

## Model

| member | source | states |
|---|---|---|
| `Wire.Uint16Of` | tsig.go:81 | `uint16(len(rr.MAC))` yields the 16-bit value congruent to the length modulo 2^16, which is the length itself when it is below 2^16 |
| `Tsig.Variables` | tsig.go:124-133 | the `tsigWireFmt` projection loses only MACSize, MAC, OrigId and the header's type and rdlength: from the variables and those five fields the record is rebuilt exactly |
| `Tsig.Scratch` | tsig.go:123 | `make([]byte, 4096)`: a scratch buffer of 4096 bytes, all zero |
| `Tsig.CopyInto` | tsig.go:123-134 | writing the packed variables into the 4096-byte scratch buffer keeps the buffer's length |
| `Tsig.CopyIntoPlacesData` | tsig.go:134-138 | after the write, the bytes from the offset on are exactly the packed variables and every byte before or after them is the scratch buffer's own, so cutting the buffer at the returned offset recovers the encoding |
| `Tsig.PackStructInto` | tsig.go:134-137 | `packStruct(tsig, buf, 0)` succeeds exactly when the variables encode and fit in the buffer; it then returns the offset just past them, with the encoding in place before it |
| `Tsig.TsigToBuf` | tsig.go:121-147 | the buffer exists exactly when the variables pack within the 4096-byte scratch buffer and the message packs; it is then the packed message followed by the packed variables, with the scratch buffer cut to the packed length |
| `Tsig.GenerateOutcome` | tsig.go:72-84 | generation fails exactly when the buffer cannot be built; on success the MAC is HMAC-MD5 of the buffer under the `unpackBase64`-decoded secret, `MACSize` is its length (16), `OrigId` is the message id, and the signed fields and header are unchanged |
| `Tsig.Unsigned` | tsig.go:109-110 | the reconstructed message carries `OrigId` as its id and its additional section minus the last record; nothing else differs from the received message |
| `Tsig.VerifyOutcome` | tsig.go:90-119 | accepts exactly when the secret decodes, the last additional record is of type TSIG, the buffer can be built from the unsigned message and its MAC equals the record's `MAC`; past the first two checks the message is left in its unsigned form, otherwise untouched |
| `Tsig.TsigRR.Generate` | tsig.go:72-84 | on success sets `MAC`, `MACSize` and `OrigId` as `GenerateOutcome` says and changes no other field; on failure changes nothing; never changes the message |
| `Tsig.TsigRR.Verify` | tsig.go:90-119 | returns `VerifyOutcome`'s verdict and leaves the caller's message in the state `VerifyOutcome` gives: id set to `OrigId` and last additional record removed once the checks pass; unchanged when it rejects at a check; the record itself is not modified |
| `Tsig.TsigRR.VerifyOnCopy` | tsig.go:99 | the intended deep-copy Verify: same verdict as `VerifyOutcome`, and the caller's message is unchanged |
| `TsigProperties.VariablesAreTheSignedFields` | tsig.go:52-65 | two records have the same TSIG variables if and only if they agree on name, class, ttl, algorithm, time signed, fudge, error, other length and other data |
| `TsigProperties.BufIgnoresUnsignedFields` | tsig.go:124-133 | records that differ only in `MACSize`, `MAC` or `OrigId` (or the header's type and rdlength) yield the same buffer for every message |
| `TsigProperties.BufIsMessageThenVariables` | tsig.go:138-146 | a corollary of `TsigToBuf`'s contract split at the seam: the buffer's length is the sum of the two packed lengths; its prefix is the packed message and its suffix the packed variables, with no scratch padding |
| `TsigProperties.RejectsBeforeDigest` | tsig.go:94-108 | when the secret does not decode, the additional section is empty or its last record is not of type TSIG, Verify rejects with the message untouched, whatever the packers and the HMAC do |
| `TsigProperties.VerdictIgnoresArrivingId` | tsig.go:109-112 | the header id a message arrives with changes neither the verdict nor, past the checks, the message Verify leaves behind |
| `TsigProperties.GenerateThenVerify` | tsig.go:67-119 | after Generate succeeds, appending any TSIG-typed record and rewriting the id, Verify with the signed record accepts and restores the message as it was when signed, given that both decoders yield the same key |
| `TsigProperties.RetryAfterVerifyRejects` | tsig.go:99-110 | a signed message whose only additional record is its TSIG is accepted once, and a second Verify of the same message object then rejects it |
| `TsigProperties.SignForwardVerify` | tsig.go:67-93 | on the objects: Generate, then append, then an id rewrite, then the copying Verify accepts whenever Generate succeeded |

## Findings

| source | as written | input that shows it | evidently intended | confidence | as-written member | corrected member |
|---|---|---|---|---|---|---|
| tsig.go:99-110 | `msg2 := msg` copies the pointer only, so stripping the TSIG record and restoring the id change the caller's message | a message with no additional record, signed by Generate, with its TSIG record appended: Verify accepts, and a second Verify of the same message with the same record and secret rejects | Verify works on a deep copy ("TODO deep copy") and leaves the caller's message as it was | high; not executed | `TsigProperties.RetryAfterVerifyRejects` (about `Tsig.TsigRR.Verify`) | `Tsig.TsigRR.VerifyOnCopy` |

## Left out

- HMAC-MD5, `msg.Pack`, `packStruct` and the two base64 decoders are parameters, not models of their internals. They belong to other files or to `crypto/hmac`. The encoding rules behind the `"domain-name"` and `"fixed-size"` tags are not part of this model.
- `Tsig.PackStructInto` stands for a `packStruct` whose real write pattern is not modelled. The model fixes one pattern: an encoding that depends on the struct alone, written contiguously from `off` and leaving every other byte alone. It also reports failure exactly when the encoding fails or overruns the buffer, which is the only way the 4096-byte scratch buffer limits the variables. The library's packer may write differently, and the model says nothing about such a packer.
- `TsigProperties.GenerateThenVerify` holds only when `unpackBase64` and `packBase64` give the same key for the secret. Their bodies are not part of this model. Their shapes suggest otherwise: `unpackBase64` cannot fail, and its result is converted with `[]byte(...)` (tsig.go:73), as an encoder's string result would be. `packBase64` returns an error (tsig.go:94), as a decoder does. If one of them encodes, Generate and Verify key the HMAC differently, and the round trip fails for every secret on which the two disagree.
- Tamper sensitivity and wrong-secret rejection are not proved. They depend on HMAC being collision resistant and on packing being injective, and the model assumes nothing about those collaborators.
- `String()`, `tsigTimeToDate` and the hex and decimal formatting (tsig.go:38-48) are left out. They are presentation only and rely on helpers that are not part of this model.
- `Header()` (tsig.go:34-36) is left out. It only returns the header, and the model reads the `Hdr` field directly.
- The debug `fmt.Printf` of the buffer (tsig.go:145) is left out because it is output only.
- The algorithm-name constants (tsig.go:15-19) are left out. The code never dispatches on `Algorithm` and always uses MD5, so the model has no unknown-algorithm failure either.
- Fudge and time-window checks are absent from the code, so they are absent from the model.
- `unpackBase64` reports no error, so Generate has no secret-decoding failure.
- The doc comment of Generate (tsig.go:67) says it returns the RR with the TSIG and includes it in the message. That comment is stale: Generate returns a bool and appends nothing (tsig.go:72-84). The model follows the code, and the caller appends the record.
- Verify returns a bare boolean, not a failure kind, as the code does.
- Go's panics are not modelled (a nil record in `Extra`, a slice past its capacity).
- Go's garbage-collected slice sharing is not modelled. `Extra` is a sequence value that Verify reassigns, as the reslice at tsig.go:110 does.
