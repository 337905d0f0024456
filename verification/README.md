# Aletheia provenance, modelled and proved

A Dafny model of the v1 provenance format: the deterministic CBOR codec, the signed claim envelope, signature
sets with thresholds, the append-only claim store with its status cascade, the two chain verifiers, and the two
numeric monitors. `dafny verify dfyconfig.toml` checks everything.

| files | content |
|---|---|
| `Base`, `Cbor` | byte order, sorting, CBOR values, and encoding and strict decoding as functions |
| `CborLaws`, `CborTheorems`, `CborOrder`, `CborWire` | round trip, canonicity, injectivity, the order of keys, and every encoding octet by octet |
| `CborCodec` | the codec's loops, over a shared buffer and an advancing offset, proved against those functions |
| `Schema`, `Crypto` | dicts as records; signing and hashing over abstract Ed25519 and SHA-256 |
| `Attest`, `Threshold`, `ThresholdReport` | signature sets, n-of-m verification, what its report says, adding attestors |
| `Envelope`, `EnvelopeCodec`, `Encodable`, `Wire`, `Projection` | the schema, what encodes, the wire form and the JSON view |
| `Spelling`, `ViewSpelling` | which field stands under which key, in the wire form and in the view |
| `Propagation`, `Quantize` | the lattice, and reduction of exact rationals to integers |
| `Chain`, `Domains` | the chain and its early-exit check; what is signed and hashed, byte by byte |
| `Verifier`, `VerifierReport`, `VerifierLaws`, `Tampering` | the collect-everything verifier, what its report says, and what escapes either verifier |
| `Claims`, `ClaimLaws`, `Graph`, `Cascade`, `Store`, `Substrate` | claims, re-reading, the store and issuing |
| `Issuing`, `Attributes`, `Refusals` | what an issue adds, what the new claim says, and when a request is refused |
| `Runs`, `StatusLaw`, `RunLaws` | what every run of issue, cascade and reopen keeps |
| `Counterexamples` | inputs at which a documented promise of the code fails |
| `Monitors` | Page-Hinkley and clipped adaptive conformal inference |

## Modelling choices

- Text is its UTF-8 bytes, valid under section 4 of RFC 3629. A dict is the sequence of its entries in insertion
  order; `NoClash` says no two of its keys are equal to Python, where `1 == True`. An exception is `None`.
- SHA-256 and Ed25519 are parameters (`Crypto.Suite`). `Sound` assumes their lengths, and that an honest signature
  verifies; `NamingSound` shows that this can be met. No 32-byte hash is injective, so `CollisionFree` is assumed only
  where a lemma names it, and only of the finitely many messages hashed in the stores at hand, together with none of
  them hashing to 32 zero bytes.
- Arithmetic in the monitors and in quantization is over exact reals.
- The store has a single writer. Ids are the 16 bytes of their UUIDs. Fresh ids and the two ends of the window
  (the clock reading and the sum with the time to live) are inputs of a request.
- Parents are re-read from the store when a claim is issued, as the command line and the service do. A claim kept in
  memory across a cascade would still carry its old status.
- Reports leave out free text: an invalid envelope is reported without the message of its exception.

## Where the code and its documentation disagree

The model follows the code. For each broken promise there is an input at which it fails, and the exact condition
under which it holds.

- `decode` promises `encode(decode(data)) == data` for all it accepts. A map on the wire with the keys 1 and true is
  accepted and becomes a dict with one key (`ClashExample`); the promise holds exactly without such keys
  (`DecodeEncode`).
- `encode` accepts tuples: a tuple comes back as a list, and the two encode alike. As a dict key (`TupleKey`) it is
  refused by `decode` as an unhashable list; an encoding is taken back exactly when there are no such keys
  (`AcceptedIffScalarKeys`).
- `from_map` accepts `true` and 1.0 for the version (`VersionTrueAccepted`) and an explicit null for a missing
  optional key (`NullIntervalAccepted`); re-encoding gives the same bytes exactly without these
  (`EnvelopeReencodes`).
- `verify_chain` is documented to be broken by any tampered row. It uses two columns only, so the others can be
  rewritten unnoticed, the monitor a claim is bound to included (`ColumnsUnseen`, `ReboundAccepted`); and nothing
  anchors the head, so the last row can be replaced or left out (`ReplacedAccepted`, `Truncated`). `AlteredRow` and
  `AlteredReport` say for either verifier exactly which alterations of a row go unnoticed: those that keep the
  signed content and the recorded hash, and replacements of the last row that are sound in their place.
- A linked row whose envelope is unsigned makes `verify_chain` raise instead of returning false, and the collecting
  verifier too (`UnsignedRaises`, `SomeRaises`). `CheckRaisesIff` says exactly when the first raises, `NoReportIff`
  when the second does.
- `verify` of a signature set promises that ok means independent attestors, and `attest` refuses no key but the
  author's. A key that attests twice counts twice (`AttestingTwice`); the promise holds as long as keys are fresh
  (`AddAttestorAdds`, `OkCounts`), and for every set that is read back (`ThresholdSound`).
- The two verifiers do not ask the same. The collecting one checks the author's signature under the key in the
  signature set and, with a trust root, that the root knows the key the envelope carries; nothing compares the
  two keys. The early-exit one checks the signature under the carried key and ignores attestors. A store can be
  ok by the first and rejected by the second (`ForeignKey`, `SomeForeignKey`): exactly when the report is ok and some
  envelope does not verify under its own key (`AfterOkReport`). `VerifiersCompared` relates them on every store.
- The ratio reductions are documented for [0, 1]. Since the range is checked after rounding, ratios just outside are
  accepted (`RatiosOutside`); `PpmFloorMeans` and `PpmCeilMeans` say exactly which.
- The schema bounds an interval's mantissas but not its exponents, so a claim can be issued that `get` cannot render
  (`ValidButUnreadable`), nor anything be derived from; `RereadExact` and `IssueIff` carry the exact condition.

## Model

| member | source | states |
|---|---|---|
| `CborCodec.EncodeInto` | src/aletheia/provenance/cbor.py:97-163 | appends exactly the encoding of the value to the buffer, or reports the error when the value has none |
| `CborCodec.EncodeMapInto` | src/aletheia/provenance/cbor.py:143-162 | the dict branch: keys encoded first, duplicates refused, pairs sorted by encoded key, then written out |
| `CborCodec.EncodeValue` | src/aletheia/provenance/cbor.py:86-94 | returns the encoding, starting from an empty buffer |
| `CborCodec.DecodeAt` | src/aletheia/provenance/cbor.py:218-288 | reads one item at an offset: its value, with dicts built key by key, and the offset after it; None where the source raises, beyond the end included |
| `CborCodec.DecodeArray` | src/aletheia/provenance/cbor.py:243-249 | the item loop, for any declared count |
| `CborCodec.DecodeMap` | src/aletheia/provenance/cbor.py:251-276 | the entry loop: keys strictly ascending as bytes, array and map keys refused, a key Python already holds overwritten in place |
| `CborCodec.DecodeBytes` | src/aletheia/provenance/cbor.py:169-178 | one item and nothing after it |
| `CborLaws.HeadReads` | src/aletheia/provenance/cbor.py:70-83 | every head is read back as its major type and argument, whatever follows |
| `CborLaws.HeadCanonical` | src/aletheia/provenance/cbor.py:181-215 | whatever is read as a head is the shortest head of its argument |
| `CborLaws.RoundTrip` | src/aletheia/provenance/cbor.py:97-163 | the encoding of a value in front of any bytes is read back as that value, dicts in canonical order, and exactly those bytes are left |
| `CborLaws.Canonical` | src/aletheia/provenance/cbor.py:218-288 | whatever the decoder accepts at the front of any bytes is exactly the encoding of the value it returns |
| `CborCodec.ReadsInContext` | src/aletheia/provenance/cbor.py:218-288 | an encoding with anything before and after it is read back at its own offset, up to its own end |
| `CborTheorems.EncodingsParseUniquely` | src/aletheia/provenance/cbor.py:86-94 | two encodings followed by anything that give the same bytes are the same encoding followed by the same rest; no encoding is a proper prefix of another |
| `CborTheorems.EncodeInjective` | src/aletheia/provenance/cbor.py:86-94 | two values have the same encoding exactly when they are equal up to the order of dict items, and up to tuples being lists |
| `CborTheorems.InsertionOrderIrrelevant` | src/aletheia/provenance/cbor.py:143-162 | a dict encodes to the same bytes in every insertion order, or in none |
| `CborTheorems.AcceptedIffScalarKeys` | src/aletheia/provenance/cbor.py:267-270 | the decoder takes an encoding back exactly when no dict in the value has an array or map key |
| `CborTheorems.EncodeDecode` | src/aletheia/provenance/cbor.py:169-178 | decode(encode(v)) is v up to tuples becoming lists, exactly when v has no tuple as a dict key |
| `CborTheorems.DecodeEncode` | src/aletheia/provenance/cbor.py:169-178 | encode(decode(data)) == data exactly when no map on the wire holds two keys a Python dict identifies |
| `CborTheorems.ClashExample` | src/aletheia/provenance/cbor.py:271-273 | five accepted bytes, with the keys 1 and true, that re-encode differently |
| `Counterexamples.TupleKey` | src/aletheia/provenance/cbor.py:267-270 | a dict with a tuple key that encodes and is refused when read back |
| `CborOrder.HeadIncreasing` | src/aletheia/provenance/cbor.py:70-83 | within a major type the smaller argument has the bytewise smaller head, across all five widths |
| `CborOrder.TextKeyOrder` | src/aletheia/provenance/cbor.py:144-148 | encoded text keys compare as their UTF-8 bytes do in shortlex order, at every length |
| `CborOrder.TextMapOrder` | src/aletheia/provenance/cbor.py:158-162 | a dict with text keys is written in shortlex order of its keys |
| `CborWire.HeadSays` | src/aletheia/provenance/cbor.py:70-83 | a head exists exactly up to 2^64 - 1; its first octet holds the major type and, below 24, the argument, else how many octets follow that spell it in base 256, as few as can |
| `CborWire.IntSpelled` | src/aletheia/provenance/cbor.py:117-127 | an integer is encoded exactly from -2^64 to 2^64 - 1: a non-negative one as the argument of major type 0, a negative i as -1 - i under major type 1 |
| `CborWire.IntOrder` | src/aletheia/provenance/cbor.py:117-127 | encodings of integers ascend with the integer from 0 up and with its magnitude below; 0 is the octet 00 and -1 the octet 20 |
| `CborWire.SimplesSpelled` | src/aletheia/provenance/cbor.py:99-116 | false, true and null are the octets F4, F5 and F6, and no float has an encoding |
| `CborWire.StringsSpelled` | src/aletheia/provenance/cbor.py:128-137 | a string is major type 2 or 3, its length in bytes, and its bytes |
| `CborWire.ArraySpelled` | src/aletheia/provenance/cbor.py:138-142 | an array is major type 4, its length, and its items' encodings in order |
| `CborWire.DictSpelled` | src/aletheia/provenance/cbor.py:143-162 | a dict is major type 5, its size, and keys and values in turn, encoded keys strictly ascending bytewise |
| `CborWire.TextSpelled` | src/aletheia/provenance/cbor.py:235-242 | bytes are text exactly when they are the 1 to 4 octet forms of a list of Unicode scalar values, surrogates excluded |
| `CborWire.PutMeans` | src/aletheia/provenance/cbor.py:271-275 | storing under a key changes what is looked up under equal keys only, and keeps an old key in its place |
| `CborWire.LastWins` | src/aletheia/provenance/cbor.py:271-275 | in the dict built from any entries, a lookup gives the last value stored under an equal key |
| `Threshold.ReadAttestorList` | src/aletheia/provenance/attest.py:172-191 | the loop over `at`: keys strictly ascending, none equal to the author's |
| `Attest.SigSetReads` | src/aletheia/provenance/attest.py:153-163 | a valid set is read back from what it is written as, its attestors in key order |
| `Attest.SigSetWritten` | src/aletheia/provenance/attest.py:165-193 | what the reader accepts is a valid set in canonical order; it is written back unchanged exactly when no optional key carries an explicit null |
| `Attest.InOrderForgets` | src/aletheia/provenance/attest.py:156-160 | the order attestors were added in does not show |
| `Spelling.AttestationSpelled` | src/aletheia/provenance/attest.py:70-75 | the key stands under k, the signature under s, the role if any under r |
| `Spelling.AttestationRead` | src/aletheia/provenance/attest.py:77-89 | a map is read as an attestation exactly with a 32-byte k, a 64-byte s, an optional text r and nothing else, and each field is what stands under its key |
| `Spelling.PolicySpelled` | src/aletheia/provenance/attest.py:113-118 | the number required stands under n, the roster's size under m, its hash if any under roster |
| `Spelling.PolicyRead` | src/aletheia/provenance/attest.py:120-143 | a policy is read exactly from integers 0 <= n <= m and an optional 32-byte roster, each from its own key |
| `Spelling.SigSetSpelled` | src/aletheia/provenance/attest.py:153-163 | the author stands under a, attestors in key order under at unless there are none, the policy under th |
| `Spelling.SigSetReadAs` | src/aletheia/provenance/attest.py:165-193 | a map is read as a set s exactly when a, at and th say s, the attestors' keys strictly ascending and none the author's |
| `Threshold.Verify` | src/aletheia/provenance/attest.py:199-250 | the report, with its three lists and its problems in order |
| `ThresholdReport.ListsMean` | src/aletheia/provenance/attest.py:213-222 | the three lists hold the first 8 bytes of the key hashes of exactly the attestors that sign and are rostered, that do not sign, and that sign off the roster, each in the attestors' order |
| `ThresholdReport.FieldsMean` | src/aletheia/provenance/attest.py:199-250 | the author flag, the number required, and whether the count of signing rostered attestors reaches it |
| `ThresholdReport.ProblemsMean` | src/aletheia/provenance/attest.py:208-238 | each problem is listed exactly when its failure occurs, once, in a fixed order |
| `Threshold.OkMeans` | src/aletheia/provenance/attest.py:199-250 | the report is ok exactly when the author and every attestor signed, every attestor is on the roster, enough of them signed, and the roster is the recorded one |
| `Threshold.ThresholdSound` | src/aletheia/provenance/attest.py:153-250 | for any set the reader returns, ok implies a valid author signature and at least `required` different keys, none the author's, each valid over the same message and on the roster when there is one |
| `Threshold.AddAttestorAdds` | src/aletheia/provenance/attest.py:269-294 | attesting is refused exactly for the author's key; otherwise it adds exactly one signature, which verifies, and the set stays valid exactly when the key is fresh |
| `Domains.AuthorOnlyMeans` | src/aletheia/provenance/attest.py:253-266 | sealing gives the signer's key and signature over the signing bytes, no role, no attestors and the given policy, and raises exactly where there is no encoding |
| `Domains.AttestorMeans` | src/aletheia/provenance/attest.py:282-294 | attesting adds the signer's key, its signature over the bytes the author signed and the role, and keeps author, policy and all earlier attestations |
| `Threshold.OkCounts` | src/aletheia/provenance/attest.py:204-206 | for any set in memory, ok means enough attestations, and enough different keys as long as none attested twice |
| `Counterexamples.AttestingTwice` | src/aletheia/provenance/attest.py:204-206 | a 2-of-3 set that one attestor signed twice is ok |
| `Threshold.AttestAllMeans` | src/aletheia/provenance/attest.py:269-294 | any number of fresh attestors, one after the other, give the old and the new attestations in key order |
| `Threshold.AttestorsAnyOrder` | src/aletheia/provenance/attest.py:269-294 | in whatever order they attest, the set is the same, and so is its encoding |
| `EnvelopeCodec.ReadParentList` | src/aletheia/provenance/envelope.py:231-242 | the loop over `par`: 16-byte ids, strictly ascending |
| `Envelope.EnvelopeReads` | src/aletheia/provenance/envelope.py:211-268 | a schema-valid envelope is read back field by field from its map, in written or in canonical order |
| `Chain.FromMapValid` | src/aletheia/provenance/envelope.py:211-268 | whatever the reader accepts, in whatever order its keys come, is schema-valid and unsigned |
| `Envelope.EnvelopeWritten` | src/aletheia/provenance/envelope.py:211-268 | a decoded structure that is accepted is written back unchanged exactly when the version is the integer 1 and no optional key is null |
| `Counterexamples.VersionTrueAccepted` | src/aletheia/provenance/envelope.py:218-219 | a structure with the version true that is read as a schema-valid envelope and encodes differently from it |
| `Counterexamples.NullIntervalAccepted` | src/aletheia/provenance/envelope.py:107-119 | a structure with an explicit null interval that is read as a schema-valid envelope and encodes differently from it |
| `Spelling.ConfidenceWritten` | src/aletheia/provenance/envelope.py:86-94 | the method stands under m, coverage under v, alpha under a, the interval if any under iv |
| `Spelling.ConfidenceRead` | src/aletheia/provenance/envelope.py:96-119 | a map is read as a confidence exactly with these keys at most, a text, two integers from 0 to 1000000 and an optional interval of 64-bit mantissas, each field from its own key |
| `Spelling.ValidityWritten` | src/aletheia/provenance/envelope.py:137-144 | the start stands under iat, the end under exp, the status word under st, the monitor if any under mon |
| `Spelling.ValidityRead` | src/aletheia/provenance/envelope.py:146-166 | a map is read as a window exactly with two times in range and in order, a known status and an optional monitor, each from its own key |
| `Spelling.EnvelopeWrites` | src/aletheia/provenance/envelope.py:190-208 | which of the thirteen keys each field of the envelope stands under |
| `Spelling.EnvelopeRead` | src/aletheia/provenance/envelope.py:211-268 | a map is read as an envelope exactly when every key holds what the schema asks, lengths, bounds, id order and the gate included, and each field is what stands under its key |
| `Spelling.WireSpelled` | src/aletheia/provenance/envelope.py:290-294 | the wire form is a map of the structure under e and the signature set under sig |
| `Spelling.WireRead` | src/aletheia/provenance/envelope.py:296-303 | it is read as exactly the structure under e with the set under sig, both present and no other key |
| `Encodable.EnvelopeEncodes` | src/aletheia/provenance/envelope.py:190-208 | a schema-valid envelope encodes exactly when its texts and parent list fit a 64-bit head, its interval exponents fit one, and ext encodes |
| `Wire.EnvelopeRoundTrip` | src/aletheia/provenance/envelope.py:290-303 | a schema-valid signed envelope has a wire form exactly when its lengths and integers fit; decoding it gives the envelope, attestors in key order, and is refused exactly when `ext` holds a tuple key |
| `Encodable.SigSetEncodes` | src/aletheia/provenance/attest.py:153-163 | a valid signature set encodes exactly when its roles, its attestor list and its policy's numbers fit 64-bit heads |
| `Wire.EnvelopeReencodes` | src/aletheia/provenance/envelope.py:290-303 | an accepted byte string re-encodes to itself exactly when it is plain: no clashing keys, version the integer 1, no explicit null |
| `EnvelopeCodec.EnvelopeObject.Sign` | src/aletheia/provenance/envelope.py:305-312 | replaces the signature set by the author's alone, or changes nothing where there is no encoding |
| `EnvelopeCodec.SigningVerifies` | src/aletheia/provenance/envelope.py:305-331 | after signing, the envelope verifies under the signer's key, given or carried, and its full report is ok exactly when the policy asks for no attestors and a given roster is the recorded one |
| `EnvelopeCodec.VerifyDefined` | src/aletheia/provenance/envelope.py:314-331 | an unsigned envelope verifies under no key; a signed, schema-valid one raises exactly when a length or an exponent does not fit |
| `EnvelopeCodec.VerifyMeans` | src/aletheia/provenance/envelope.py:314-331 | the signature is checked over the tag and the encoded structure, under the key given or else the key carried; the full report is the set's, over the same bytes |
| `Projection.HexReads` | src/aletheia/provenance/envelope.py:422-460 | hex text is read back as the bytes it was made from |
| `ViewSpelling.HexSpelled` | src/aletheia/provenance/envelope.py:399-419 | two digits a byte, the high half first, each from 0123456789abcdef |
| `ViewSpelling.FromHexStep` | src/aletheia/provenance/envelope.py:422-460 | reading hex skips white space between bytes, takes two digits of either case for each byte, and fails on anything else |
| `ViewSpelling.FixFloatMeans` | src/aletheia/provenance/envelope.py:446-455 | a float under the key becomes the integer it equals, a float that is not whole fails, and every other entry stays as it is |
| `Projection.ProjectionRoundTrip` | src/aletheia/provenance/envelope.py:399-460 | an envelope has a JSON view unless its signature set does not encode; rebuilt from it, it is the envelope, attestors in key order |
| `ViewSpelling.ViewWritten` | src/aletheia/provenance/envelope.py:399-419 | which of the view's fourteen keys each field stands under, byte fields in hex |
| `ViewSpelling.ViewRead` | src/aletheia/provenance/envelope.py:422-460 | whatever view is read, each field of the envelope is what stands under its own key, whole floats under v, a, iat and exp read as the integers they equal |
| `Propagation.Propagate` | src/aletheia/provenance/envelope.py:342-387 | the seven-variable loop, the forced gate and the clamp |
| `Propagation.CombinedMeans` | src/aletheia/provenance/envelope.py:362-378 | least coverage, greatest alpha, classification and issue time, the intersection of the windows; STALE exactly when a parent is not VALID or the intersection is empty; the gate exactly when somebody asks or the result is regulated |
| `Propagation.CombinedMonotone` | src/aletheia/provenance/envelope.py:350-357 | the result is no stronger than any parent nor than the claim's own attributes; its expiry can exceed theirs only on an empty window, born STALE |
| `Propagation.CombinedForgetsOrder` | src/aletheia/provenance/envelope.py:362-378 | only the set of parents counts |
| `Quantize.PpmFloorMeans` | src/aletheia/provenance/quantize.py:101-107 | the greatest ppm count not above the ratio, and exactly which ratios are accepted |
| `Quantize.PpmCeilMeans` | src/aletheia/provenance/quantize.py:110-116 | the least ppm count not below the ratio, and exactly which ratios are accepted |
| `Quantize.WindowShrinks` | src/aletheia/provenance/quantize.py:139-152 | a quantized window lies inside the exact one, by less than a microsecond at either end; an empty one stays empty |
| `Quantize.IntervalWidens` | src/aletheia/provenance/quantize.py:167-184 | a quantized interval contains the exact one, by less than one unit at either end, for every exponent |
| `Quantize.DecimalFloorMeans` | src/aletheia/provenance/quantize.py:167-174 | the greatest number of units of 10^e not above x, given exactly when it fits a signed 64-bit integer in magnitude |
| `Quantize.DecimalCeilMeans` | src/aletheia/provenance/quantize.py:177-184 | the least number of units of 10^e not below x, under the same condition |
| `Attributes.CeilMeans` | src/aletheia/provenance/quantize.py:139-144 | the first microsecond not before x seconds, given exactly up to the last one of the year 9999 |
| `Attributes.FloorMeans` | src/aletheia/provenance/quantize.py:147-152 | the last microsecond not after x seconds, in the same range |
| `Counterexamples.RatiosOutside` | src/aletheia/provenance/quantize.py:93-116 | a coverage above 1 and a miscoverage below 0 that are accepted |
| `Quantize.SmallDisplays` | src/aletheia/provenance/quantize.py:187-190 | every 64-bit mantissa with an exponent up to 240 can be rendered as a float |
| `Quantize.LargeOverflows` | src/aletheia/provenance/quantize.py:187-190 | 1 * 10^400 cannot |
| `Quantize.LimitMeans` | src/aletheia/provenance/quantize.py:187-190 | the bound from which rendering overflows is 2^1024 - 2^970 |
| `Quantize.QuantizationCommutes` | src/aletheia/provenance/envelope.py:363-378 | over every derivation tree, quantizing each claim and propagating integers gives what propagating exactly and quantizing once gives, status included |
| `Quantize.IssuedWeakens` | src/aletheia/provenance/envelope.py:363-378 | so an issued claim is never stronger than the exact one, and an empty exact window comes out STALE |
| `Store.ClaimStore.VerifyChain` | src/aletheia/dac.py:545-570 | the early-exit loop |
| `Chain.CheckIffLinked` | src/aletheia/dac.py:554-570 | it returns true exactly for chains in which every row parses, hashes to its record, verifies, and carries its predecessor's hash |
| `Chain.CheckRaisesIff` | src/aletheia/dac.py:554-570 | it raises, instead of returning false, exactly when some row follows accepted ones and links to them but its envelope is unsigned or has no encoding |
| `Chain.EqualMessagesAlike` | src/aletheia/provenance/codec.py:62-86 | equal bytes under the record hash come from the same structure and the same signature set |
| `Domains.SignedMessage` | src/aletheia/provenance/codec.py:40-70 | what is signed is the tag zil-provenance/v1/dac, a zero byte and the encoded structure, and is never a message under the chain entries' tag |
| `Domains.OneTag` | src/aletheia/provenance/codec.py:40-45 | no message starts with two different tags, whatever tags without a zero byte are added later |
| `Domains.HashedMessage` | src/aletheia/provenance/codec.py:73-86 | what is hashed is what was signed followed by the encoded signature set, so it starts with the tag too |
| `Domains.Genesis` | src/aletheia/provenance/codec.py:47-51 | the first predecessor is 32 zero bytes |
| `Domains.AcceptedIffBlocks` | src/aletheia/dac.py:545-570 | the early-exit check accepts exactly the rows that carry one chain from 32 zero bytes: each envelope's prev is the hash before it, its own hash is of the tag, structure and signature set, recorded in hex, and its author's signature verifies |
| `Chain.HeadDeterminesHistory` | src/aletheia/dac.py:545-570 | two accepted non-empty chains with the same last record hash have the same length and the same envelopes at every position |
| `Verifier.VerifyDacStore` | src/aletheia/provenance/verifier.py:111-162 | the report-everything loop: entries and defects in order, recovering after a bad row |
| `Verifier.VerifyRow` | src/aletheia/provenance/verifier.py:128-161 | what one row contributes and which hash is expected next |
| `VerifierReport.ReportMeans` | src/aletheia/provenance/verifier.py:126-162 | every report: one entry a row, unreadable exactly where the row is, else with its envelope's id, kind and producer; each defect listed exactly when its own failure occurs at that row, in row order; a row ok exactly without defects, the report exactly without any |
| `VerifierLaws.NoReportIff` | src/aletheia/provenance/verifier.py:126-162 | there is no report exactly when some row parses but is unsigned or has no encoding, or does not parse and its recorded hash is not hex |
| `Counterexamples.UnsignedRaises` | src/aletheia/dac.py:554-570 | on the view of any schema-valid unsigned envelope, linked as a first row, neither verifier gives a verdict |
| `VerifierLaws.VerifiersCompared` | src/aletheia/provenance/verifier.py:126-162 | on every store: the report is ok and every envelope verifies under the key it carries, exactly when the early-exit check returns true and every signature set is ok and trusted |
| `VerifierLaws.AfterOkReport` | src/aletheia/dac.py:554-570 | after an ok report the early-exit check returns true if every envelope verifies under the key it carries, and false otherwise; it does not raise |
| `Counterexamples.ForeignKey` | src/aletheia/provenance/verifier.py:144-161 | any envelope with a trusted producer's key whose author signs with another gives an ok report and is rejected by the early-exit check |
| `VerifierLaws.VerifiersAgree` | src/aletheia/provenance/verifier.py:126-162 | on author-only rows the report is ok exactly when the early-exit check returns true |
| `Tampering.ColumnsUnseen` | src/aletheia/dac.py:554-557 | whatever is written into the id, prev_hash, status or monitor_id column of a row, neither verdict changes |
| `Tampering.AlteredRow` | src/aletheia/dac.py:545-570 | in an accepted store, altering one row goes unnoticed exactly when it keeps the same signed content and recorded hash, or is the last row and sound and linked in its own right |
| `Tampering.Truncated` | src/aletheia/dac.py:545-570 | an accepted store stays accepted when rows at its end are left out |
| `Counterexamples.ReboundAccepted` | src/aletheia/dac.py:554-557 | an accepted claim rebound to another monitor, whose cascade then reaches it, is still accepted |
| `Counterexamples.ReplacedAccepted` | src/aletheia/dac.py:545-570 | two different producers' claims, each accepted in the other's place |
| `Tampering.AlteredDefects` | src/aletheia/provenance/verifier.py:126-162 | whatever one row of a clean store is altered to, exactly which rows have defects: at most that row and its successor |
| `Tampering.AlteredReport` | src/aletheia/provenance/verifier.py:126-162 | altering one row goes unnoticed exactly when it keeps the same signed content and recorded hash, or is the last row and clean where it stands |
| `Tampering.DefectsAreLocal` | src/aletheia/provenance/verifier.py:126-162 | rewriting the json of row k in a clean store gives defects at exactly {k}, or at exactly {k, k + 1} when it still parses and has a successor |
| `Claims.CanonicalParents` | src/aletheia/dac.py:430-442 | the loop with its seen set, then the sort |
| `Claims.CanonicalMeans` | src/aletheia/dac.py:430-442 | the result is strictly increasing and holds the same ids |
| `Claims.CanonicalUnique` | src/aletheia/dac.py:430-442 | it depends on the set of ids only |
| `ClaimLaws.RereadExact` | src/aletheia/dac.py:599-639 | a claim can be re-read exactly when its interval can be rendered; it then denotes the stored envelope but for the column's status and a dropped `ext`, and has the stored record hash exactly when the column holds the signed status and there is no `ext` |
| `ViewSpelling.RereadSpelled` | src/aletheia/dac.py:599-639 | each field of a re-read claim is what stands under its own key of the view, the status from the column and the fingerprint from the key |
| `Attributes.Denotes` | src/aletheia/dac.py:381-406 | the envelope a claim denotes: its hex texts as bytes, 32 zero bytes for an empty predecessor, unsigned for an empty signature text |
| `ClaimLaws.UsuallyReadable` | src/aletheia/dac.py:606-609 | interval exponents up to 240 can always be rendered |
| `ClaimLaws.ValidButUnreadable` | src/aletheia/provenance/envelope.py:111-118 | a confidence the schema accepts that cannot be re-read |
| `Store.ClaimStore.constructor` | src/aletheia/dac.py:460-483 | opening resumes the chain from the last row's record hash |
| `Store.ClaimStore.Head` | src/aletheia/dac.py:485-492 | the cached head, the genesis value when empty |
| `Store.ClaimStore.Append` | src/aletheia/dac.py:494-513 | adds one row, one edge per parent, and advances the head; a duplicate id changes nothing |
| `Store.ClaimStore.Get` | src/aletheia/dac.py:515-530 | the claim under an id, with the column's status; None for an unknown id, or where the view raises |
| `Store.ClaimStore.CascadeStale` | src/aletheia/dac.py:572-596 | on any edges, cycles and dangling ids included: exactly the VALID claims bound to the monitor or derived from one that is become STALE, nothing else changes, and the count is their number |
| `Cascade.ExploredAll` | src/aletheia/dac.py:577-594 | when the frontier is empty, exactly the governed ids have been seen |
| `Graph.CascadeTwice` | src/aletheia/dac.py:572-596 | repeating a cascade changes nothing and returns 0 |
| `Graph.CascadesCommute` | src/aletheia/dac.py:572-596 | the cascades of two monitors commute, in the column and in the total count |
| `Substrate.ReadParents` | src/aletheia/cli.py:90-94 | the parents are re-read from the store by id |
| `Substrate.Issue` | src/aletheia/dac.py:660-712 | the caller's confidence weakened in place, the head read before signing, the signed claim appended; on an error the store is unchanged |
| `Issuing.SealedDenotes` | src/aletheia/dac.py:381-406 | the claim with its hex signature text denotes the envelope with its author-only set, which verifies |
| `Issuing.IssueMeans` | src/aletheia/dac.py:660-712 | what a successful issue adds to a well-formed store: a sound row linked to the head, canonical parents, and the combination of the request with the parents as they stand |
| `Attributes.IssuedSays` | src/aletheia/dac.py:660-712 | over the request's own fields: kind, payload hash, producer, key, method, interval, monitor, parents and predecessor are copied into the envelope, the claim returned and the row; the claim is never stronger than its issuer's attributes, and says exactly those when it has no parents; the caller's confidence is left as the claim's |
| `Attributes.IssuedCombines` | src/aletheia/dac.py:679-712 | over the request's own fields and the stored parents': each attribute is the issuer's own or some parent's, and the weakest of them; the exact window, gate and status |
| `Refusals.IssueIff` | src/aletheia/dac.py:660-712 | a request is refused exactly when a parent is unknown or cannot be re-read, a time is out of range, the id is taken, or a text, the parent list or an interval exponent does not fit 64 bits |
| `RunLaws.IssueForgetsOrder` | src/aletheia/dac.py:679-712 | permuting or repeating the parents changes neither the signed claim nor the store |
| `Runs.RunSafe` | src/aletheia/dac.py:460-513 | after every run of issue, cascade and reopen from an empty store: both verifiers accept it, the cached head is the last record hash, every stored view is schema-valid and signed by its producer alone, edges are exactly the parent lists |
| `Runs.ReopenSame` | src/aletheia/dac.py:477-483 | after every run, closing and reopening the store changes nothing |
| `RunLaws.AppendOnly` | src/aletheia/dac.py:455-457 | what the store held at any point of a run stays as it was signed, in the same order and under the same record hashes; only the status column changes, and no claim becomes VALID again |
| `StatusLaw.StatusClosedForm` | src/aletheia/dac.py:572-596 | a status is not VALID exactly when the claim or an ancestor had its window clamped at issue, or has a monitor that was tripped after that ancestor was issued |
| `StatusLaw.ValidParents` | src/aletheia/provenance/envelope.py:370-371 | no VALID claim has a parent that is not |
| `RunLaws.AncestorsMonotone` | src/aletheia/provenance/envelope.py:362-387 | from every ancestor to every descendant: coverage, alpha, classification, gate and issue time are monotone, windows are nested, and the clamp exceeds an ancestor's expiry only on an empty window born STALE |
| `RunLaws.RunReread` | src/aletheia/dac.py:729-761 | after any run a claim can be re-read exactly when its interval can be rendered; all fields but the status come back, and the record hash exactly while the column holds the signed status |
| `Monitors.DriftMonitor.Observe` | src/aletheia/dac.py:142-150 | keeps the running mean the arithmetic mean, `m - minM` the largest suffix sum of deviations, and the alarm on exactly when that exceeded the threshold after some observation; it latches |
| `Monitors.MeanStep` | src/aletheia/dac.py:144-145 | the running update computes the arithmetic mean |
| `Monitors.MaxStep` | src/aletheia/dac.py:146-147 | the largest suffix sum, empty suffix included, after one more observation |
| `Monitors.AlarmStep` | src/aletheia/dac.py:148-149 | which steps have alarmed, after one more observation |
| `Monitors.AdaptiveConformal.Update` | src/aletheia/dac.py:118-121 | one update by gamma times the target less the outcome, clipped to [0, 1] |
| `Monitors.Accounting` | src/aletheia/dac.py:118-121 | gamma times the excess of misses over the target is alpha's change plus what clipping added at 0 less what it took at 1, for every outcome sequence |
| `Monitors.MissBounds` | src/aletheia/dac.py:118-121 | misses are at most target * T + alpha/gamma when no clip at 0 fired, and at least target * T - (1 - alpha)/gamma when no clip at 1 fired |

## Left out

- Python lists and tuples: both are `Arr`; a decoded tuple comes back as a list.
- Lone surrogates in text, the recursion limit, and the distinction between kinds of exception.
- JSON text: the json column is the parsed value, or nothing; not-a-number and infinities are not values.
- Views of rows whose fields have other types than any writer gives them: `Claims.Reread` returns None, where Python may
  raise later or carry the odd value along. The float fields of the view, which are for display, are dropped; that
  rendering an interval raises is modelled, running out of memory over a huge power of ten is not.
- UUID text in its alternative spellings, and the `fmt` column with version 0 rows.
- `Runs.RunSafe`: assumes the documented ranges of the caller's inputs (coverage and alpha in ppm, the four classes,
  interval mantissas); the store itself does not check them.
- Aliasing: the claim that issuing returns shares the caller's confidence object; here it holds a copy.
- `from_projection` repairs floats in its input in place; here that builds a new value.
- `Substrate.verify` and the registry of producers; `author_only` and `attest` take secret keys as byte strings.
- Rosters beyond their keys and hash; the trust root is a predicate on producer and key.
- Ed25519 and SHA-256 themselves, the keystore, the command line, the service, OSCAL rendering, SQLite and transactions.
- Several writers on one store: the head is cached per process.
- `entry.py` and the second chain format: the same construction over another schema.
- Version 0 readers, split conformal quantiles, adaptive widths and the Kolmogorov-Smirnov check: they rest on formats
  or numerical libraries that are not part of this model.
- Rounding of floating point in the monitors.
