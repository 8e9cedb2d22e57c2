# Protocol cores, proved

This project models eight protocol cores of a clean-room Rust monorepo in Dafny and proves what they are for.

- **Ed25519 arithmetic** (RFC 8032, section 5.1): limb arithmetic modulo 2^255 - 19 and modulo the group order L,
  with every carry, fold and borrow. Words are subset types of `int`, so every assignment proves that nothing overflows.
  2^255 - 19 is proved prime (`PrimeCertificates`), so that the inverse by Fermat's theorem is an inverse.
- **CBOR** (RFC 8949): encoder, decoder and canonical form. The round trip gives injectivity, injectivity gives the
  uniqueness of the sorted form. The buffer-writing encoder and the cursor decoder are proved against the same functions.
- **DTLS 1.3** (RFC 9147): the bitmap replay window against a plain set, the handshake codec, reassembly in any order,
  and a client and a server over every schedule of drops, duplicates and reorderings.
- **AES key wrap** (RFC 3394): the nested loops and their reversal, over any block permutation.
- **BGP** (RFC 4271): the Loc-RIB as an exact index with its order-dependent MED step, the message codecs, the peer FSM.
- **DHCPv6 lease store** (RFC 8415): allocation, renewal, expiry, release and decline over every run.
- **HTTP dates** (RFC 9110, section 5.6.7) against the Gregorian calendar, and **HTTP message signatures**
  (RFC 9421) with their Structured Field codec.
- **BFD** (RFC 5880): two sessions over a network that loses, duplicates and reorders.

Each codec and state machine comes in two layers: functions that say what is computed, about which the theorems are
proved, and classes or loops in the source's own imperative form, proved to compute those functions. `dafny verify
dfyconfig.toml` checks everything.

What enters from outside is a parameter: the AES block function (any permutation), hashes, key derivation, signatures and
key agreement (functions with stated laws), base64, component values of a message, clocks and instants.

Modelling decisions worth knowing:

- In the key wrap an eight-byte register is the big-endian number it spells. XOR of the bytes is XOR of the numbers.
- `Wire` serves the readers and writers of both the BGP and the DTLS crate. Errors keep their kind but not their
  diagnostic offsets.
- The DTLS transcript is a list of messages whose encodings make up the bytes; `TranscriptInjective` shows that nothing is
  lost. A sealed record names the traffic keys it was sealed with and opens only under those. Hash and key derivation are
  injective; the HMAC is only assumed not to collide on the transcripts that occur in the run (`CollisionFree`).
- Texts of Structured Fields are sequences of characters, one per byte.

Where the code departs from its documentation, the model follows the code:

- The replay window's comment speaks of a 48-bit sequence space; the code checks 56 bits
  (`LargeAccepted`).
- Canonical map keys are sorted by encodings that are not canonical themselves, so a canonical encoding whose keys hold
  maps can be rejected by the canonical decoder (`MapKeysRejected`); `CanonicalAcceptedIff` says exactly when.
- The canonical decoder checks for shortest heads only on integers (`LongHeadAccepted`); `ShortestIff` says exactly which
  texts it accepts that the encoder would not write.
- A bignum of sixteen bytes with its top bit set comes back negative (`BignumCollapse`).
- The calendar inverse has no term for the last day of a 400-year era, which comes back as the day after
  (`EraEndIsOffByOne`).
- Years up to 99, in any format, are taken for years of the twentieth century (`WrongCentury`); `Rfc850Parses`, `ImfParses`
  and `AsctimeParses` say exactly when the right instant comes out.
- A requested DHCPv6 prefix shorter than the pool's is granted and can overlap others (`ShorterRequestOverlaps`);
  `GrantDisjointIff` and, over runs, `NoOverlap` give the exact condition.
- A scan can leave its pool (`UnalignedStrays`, `FullPoolStrays`) or not end (`ThirdCallEndless`); `InPoolIff` and
  `AlwaysInPoolIff` say exactly when it stays.
- A component with upper-case letters in its field name can be signed, and the verifier rebuilds another base for it
  (`DateIsNotNormal`); `VerifierRebuildsBase` says exactly when it is the same.
- Building a signature base does not look for line breaks in component values; with them, different values can make the
  same base (`BrokenLinesConfuse`). `BaseTells` says exactly when a base tells what was signed.
- MED comparison makes route preference non-transitive (`MedCircleOrderDependent`); `ArrivalOrder` says exactly when
  the choice does not depend on arrival order.
- A BGP withdrawal is documented to report whether the Loc-RIB entry was removed or changed, and reports true for every
  entry that exists (`ReportsNoChange`); `WithdrawalChanges` says when the entry really changes, and `ReportIsRight` when
  the report is right.
- The BGP decoder does not look at the 16-byte marker (`MarkerIgnored`).

## Model

| member | source | states |
|---|---|---|
| LimbArithmetic.GreaterEq | tpt-ed25519/src/field.rs:21-32 | true exactly when the number of the first limbs is at least the number of the second |
| LimbArithmetic.AddLimbs | tpt-ed25519/src/field.rs:167-179 | the sum and its carry out of the top limb spell exactly a + b; no intermediate word overflows |
| LimbArithmetic.SubLimbs | tpt-ed25519/src/field.rs:34-48 | the difference and its borrow spell exactly a - b |
| LimbArithmetic.MulLimbs | tpt-ed25519/src/field.rs:205-228 | the schoolbook product with its carries spells exactly a times b |
| Field.Shr255 | tpt-ed25519/src/field.rs:54-69 | limbs of the number divided by 2^255 |
| Field.FoldLimbs | tpt-ed25519/src/field.rs:81-101 | one pass of the reduction loop computes Fold: the low 255 bits plus 19 times the rest |
| Field.FoldTimesCongruent | tpt-ed25519/src/field.rs:81-101 | any number of folds keeps the value modulo 2^255 - 19 |
| Field.ThreeFoldsSuffice | tpt-ed25519/src/field.rs:74-101 | from any number below 2^576, three folds leave less than 2^255 and every further fold changes nothing |
| Field.Reduce | tpt-ed25519/src/field.rs:74-110 | the result is canonical and is the number of the (first nine) limbs modulo p |
| Field.CanonicalIsUnique | tpt-ed25519/src/field.rs:102-116 | two canonical elements congruent modulo p have the same limbs |
| Field.FieldElement.Add | tpt-ed25519/src/field.rs:167-179 | the canonical representative of a + b; no carry is lost |
| Field.FieldElement.Sub | tpt-ed25519/src/field.rs:181-203 | the canonical representative of a - b, through the conditional addition of p |
| Field.FieldElement.Mul | tpt-ed25519/src/field.rs:205-228 | the canonical representative of a times b |
| Field.FieldElement.Neg | tpt-ed25519/src/field.rs:234-237 | the canonical representative of -a |
| Field.FieldElement.Scale | tpt-ed25519/src/field.rs:239-253 | the element itself or zero, by the low bit of the factor, as the code masks it |
| Field.PowerStep | tpt-ed25519/src/field.rs:270-276 | one step takes the power q to the power 2q + b |
| Field.FieldElement.Power | tpt-ed25519/src/field.rs:265-278 | square-and-multiply over all 256 bits gives a^e modulo p for every exponent |
| Field.FieldElement.Invert | tpt-ed25519/src/field.rs:254-263 | exactly a^(p-2) modulo p, and the product with a is one, for every a that is not zero modulo p |
| Field.PrimeIsPrime | tpt-ed25519/src/field.rs:254-255 | 2^255 - 19 is prime, which the inversion rests on |
| Field.NoZeroDivisors | tpt-ed25519/src/field.rs:205-228 | a product is zero modulo p exactly when a factor is |
| Field.InverseRoundTrip | tpt-ed25519/src/field.rs:311-316 | for every element but zero, the product with its inverse is the element one, limb for limb |
| Primes.Fermat | tpt-ed25519/src/field.rs:254-255 | Fermat's little theorem for every prime, by the product of the multiples 1 a to (r - 1) a |
| Primes.PowerInverts | tpt-ed25519/src/field.rs:254-255 | for every prime p, a^(p-2) is the inverse of a modulo p unless p divides a |
| Field.AddSubRoundTrip | tpt-ed25519/src/field.rs:302-309 | subtracting what was added gives the element back |
| Field.Distributivity | tpt-ed25519/src/field.rs:367-405 | multiplication distributes over addition, limb for limb |
| Field.Associativity | tpt-ed25519/src/field.rs:367-405 | multiplication is associative, limb for limb |
| Scalars.ShiftLeft | tpt-ed25519/src/scalar.rs:33-39 | doubling in place: twice the number, when its top bit is clear |
| Scalars.SubtractOrder | tpt-ed25519/src/scalar.rs:51-64 | in-place subtraction of L from a number at least L |
| Scalars.ModL | tpt-ed25519/src/scalar.rs:29-67 | for limb arrays of any length, the input modulo L; the remainder stays below L and its doubling below 2^256 |
| Scalars.DoubledRemainder | tpt-ed25519/src/scalar.rs:29-67 | why one conditional subtraction after each doubling suffices |
| Scalars.Scalar.FromBytesLe | tpt-ed25519/src/scalar.rs:97-109 | accepts exactly the 32-byte little-endian numbers below L |
| Scalars.Scalar.ToBytesLe | tpt-ed25519/src/scalar.rs:111-118 | the 32 little-endian bytes of the number |
| Scalars.Scalar.AddMod | tpt-ed25519/src/scalar.rs:125-135 | a + b modulo L |
| Scalars.Scalar.MulMod | tpt-ed25519/src/scalar.rs:137-161 | a times b modulo L |
| Scalars.BytesRoundTrip | tpt-ed25519/src/scalar.rs:97-118 | reading what was written gives the scalar; writing what was read gives the bytes |
| Replay.ReplayWindow.constructor | tpt-dtls/src/replay.rs:35-44 | an empty window of the size rounded up to whole words |
| Replay.ReplayWindow.WindowSlide | tpt-dtls/src/replay.rs:89-118 | the in-place multi-word shift moves every bit down by n and clears what comes in |
| Replay.SlidSeen | tpt-dtls/src/replay.rs:89-118 | shifting the words shifts the abstract bit set |
| Replay.SlideKeepsSet | tpt-dtls/src/replay.rs:89-118 | after the shift the words still hold the same accepted numbers, seen from the new base |
| Replay.ReplayWindow.Check | tpt-dtls/src/replay.rs:53-87 | accepts exactly the numbers never accepted before that are not below the window; base is max(0, highest + 1 - window) |
| Replay.LargeAccepted | tpt-dtls/src/replay.rs:50-87 | every number of more than 48 but at most 56 bits is accepted by a new window |
| Replay.CheckAll | tpt-dtls/src/replay.rs:53-87 | over every run, each verdict is the one a plain set of accepted numbers gives |
| KeyWrap.StepsInverse | tpt-cms/src/crypto.rs:211-269 | one wrapping step and one unwrapping step undo each other |
| KeyWrap.RoundsUndone | tpt-cms/src/crypto.rs:190-279 | all rounds forward and then all rounds back, over any number of blocks |
| KeyWrap.RoundsRedone | tpt-cms/src/crypto.rs:190-279 | all rounds back and then all rounds forward |
| KeyWrap.CounterAt | tpt-cms/src/crypto.rs:211-217 | the counter n*j + i + 1 never overflows 64 bits |
| KeyWrap.WrapRound | tpt-cms/src/crypto.rs:211-229 | one inner loop over the register and the blocks, in place |
| KeyWrap.UnwrapRound | tpt-cms/src/crypto.rs:252-269 | one inner loop backwards, in place |
| KeyWrap.AesKeyWrap | tpt-cms/src/crypto.rs:190-237 | the whole wrapping, with its length checks |
| KeyWrap.AesKeyUnwrap | tpt-cms/src/crypto.rs:239-279 | the whole unwrapping, with its length and integrity checks |
| KeyWrap.UnwrapWrap | tpt-cms/src/crypto.rs:190-279 | unwrap(wrap(x)) = x for every block permutation and every n >= 1 |
| KeyWrap.WrapUnwrap | tpt-cms/src/crypto.rs:190-279 | if unwrap(w) succeeds with x then wrap(x) = w |
| CborRoundTrip.HeadParses | tpt-cbor/src/value.rs:143-160 | a type-and-number head is read back whatever follows |
| CborRoundTrip.RoundTrip | tpt-cbor/src/value.rs:143-249 | decoding the encoding of a well-formed value returns it and leaves exactly the bytes after it |
| CborRoundTrip.IntegerRoundTrip | tpt-cbor/src/value.rs:202-232 | integers of every width, bignums included, survive |
| CborRoundTrip.PrefixFree | tpt-cbor/src/value.rs:162-200 | no encoding followed by anything equals another encoding followed by anything |
| CborRoundTrip.EncodeInjective | tpt-cbor/src/value.rs:162-200 | different well-formed values have different encodings |
| CborRoundTrip.BignumCollapse | tpt-cbor/src/decoder.rs:229-243 | a bignum tag over at most 16 bytes yields the number it spells exactly when it has fewer than 16 bytes or its top bit is clear |
| CborCanonical.SortOrdered | tpt-cbor/src/value.rs:184-194 | sorting orders the keys by length and then bytewise |
| CborCanonical.SortStrict | tpt-cbor/src/value.rs:126-135 | with distinct keys the order is strict |
| CborCanonical.SortedKeysAgree | tpt-cbor/src/value.rs:126-135 | a sorted list of keys is determined by its set |
| CborCanonical.CanonOrderIndependent | tpt-cbor/src/value.rs:162-200 | values with distinct keys that differ only in the pair order of maps, at any depth outside keys, have the same canonical form |
| CborCanonical.CanonicalBytesAgree | tpt-cbor/src/value.rs:162-200 | and so the same canonical bytes |
| CborCanonical.CanonWellFormed | tpt-cbor/src/value.rs:162-200 | the canonical form is what the canonical decoder demands exactly when, in every map, the keys are distinct and keep their order when the maps inside them are sorted |
| CborStrict.CanonicalAcceptedIff | tpt-cbor/src/decoder.rs:194-227 | for every value: the canonical decoder accepts its canonical encoding, and returns the sorted value, exactly when its keys agree in that sense; keys without maps in them always do |
| CborStrict.DecodeAgrees | tpt-cbor/src/decoder.rs:78-310 | stricter options never change what is decoded, they only reject more |
| CborStrict.RoundTripIff | tpt-cbor/src/decoder.rs:194-227 | an encoding is accepted under given options exactly when all its maps are in the order they ask for |
| CborStrict.MapKeysRejected | tpt-cbor/src/value.rs:184-194 | a family of canonical encodings that the canonical decoder rejects, because keys holding maps are sorted by other bytes than the ones written |
| CborShortest.ShortestIff | tpt-cbor/src/decoder.rs:78-106 | what the canonical decoder accepts is the encoding of what it returns exactly when every head is as short as can be and every bignum is needed |
| CborShortest.TightUnique | tpt-cbor/src/decoder.rs:78-106 | so two such texts of the same value are the same |
| CborShortest.LongHeadAccepted | tpt-cbor/src/decoder.rs:108-115 | an empty byte string with a two-byte head is accepted as canonical |
| CborEncoder.Output.WriteTypeNumber | tpt-cbor/src/value.rs:143-160 | appends the shortest head |
| CborEncoder.TrimLeadingZeros | tpt-cbor/src/value.rs:234-239 | drops leading zeros, keeping at least one byte |
| CborEncoder.Output.WriteInteger | tpt-cbor/src/value.rs:202-232 | appends the encoding of an integer, as a number or a bignum |
| CborEncoder.Output.WriteMap | tpt-cbor/src/value.rs:184-194 | appends a map, sorted in canonical mode |
| CborEncoder.Output.WriteValue | tpt-cbor/src/value.rs:162-200 | appends exactly the encoding of the value, or of its canonical form |
| CborEncoder.EncodeToVec | tpt-cbor/src/value.rs:137-141 | the bytes of the value, or of its canonical form |
| CborDecoder.Accumulate | tpt-cbor/src/decoder.rs:54-70 | the byte-by-byte accumulation is the big-endian number |
| CborDecoder.Decoder.TakeLen | tpt-cbor/src/decoder.rs:44-75 | length fields, reserved forms and the indefinite marker |
| CborDecoder.Decoder.Chunks | tpt-cbor/src/decoder.rs:116-138 | the chunks of an indefinite-length string |
| CborDecoder.Decoder.StringValue | tpt-cbor/src/decoder.rs:108-149 | byte and text strings |
| CborDecoder.Decoder.SimpleValue | tpt-cbor/src/decoder.rs:245-282 | simple values other than floats; reserved ones are errors |
| CborDecoder.Decoder.ArrayValue | tpt-cbor/src/decoder.rs:151-179 | definite and indefinite arrays |
| CborDecoder.Decoder.MapBody | tpt-cbor/src/decoder.rs:194-227 | both map loops with the duplicate and order checks |
| CborDecoder.Decoder.TagValue | tpt-cbor/src/decoder.rs:229-243 | tags, with bignums collapsed |
| CborDecoder.Decoder.NextValue | tpt-cbor/src/decoder.rs:78-106 | the cursor decoder returns and consumes what the specification says, for every input without floats and every option, errors included |
| CborDecoder.DecodeData | tpt-cbor/src/decoder.rs:329-336 | in canonical mode nothing may follow the item |
| Rib.BeatsTotal | tpt-bgp/src/rib.rs:79-130 | of two routes from different sources exactly one is preferred |
| Rib.BestTier | tpt-bgp/src/rib.rs:201-218 | the best route is never behind a candidate in LOCAL_PREF, AS_PATH segments and ORIGIN, in this order |
| Rib.WinnerIsBest | tpt-bgp/src/rib.rs:201-218 | a candidate that beats all others is chosen in whatever order they arrived |
| Rib.ArrivalOrder | tpt-bgp/src/rib.rs:78-130 | the choice is independent of arrival order exactly when some candidate beats every other one |
| Rib.SharedNeighbourDecides | tpt-bgp/src/rib.rs:106-116 | when the front runners share their neighbour AS, the best route beats all others and order is irrelevant |
| Rib.MedCircleOrderDependent | tpt-bgp/src/rib.rs:106-116 | three routes on which preference runs in a circle and the last arrival decides |
| Rib.MedCircleExists | tpt-bgp/src/rib.rs:106-116 | such routes exist |
| Rib.AdjIsHistory | tpt-bgp/src/rib.rs:171-199 | after every run the Adj-RIB-In holds exactly what each source last advertised and has not withdrawn, one route per source |
| Rib.RunsConverge | tpt-bgp/src/rib.rs:171-218 | runs that leave the same advertisements standing choose the same route, if one of them beats the rest |
| Rib.Rib.Recompute | tpt-bgp/src/rib.rs:201-218 | the Loc-RIB entry becomes the fold of the decision process over the candidates; other entries stay |
| Rib.Rib.InsertRoute | tpt-bgp/src/rib.rs:171-183 | replaces the source's route or appends it, and keeps the index exact, for every decision process |
| Rib.Rib.WithdrawRoutes | tpt-bgp/src/rib.rs:188-199 | removes the peer's routes, drops an empty list, keeps the index exact, and reports true exactly when there was an entry or there is one now, so no change is missed |
| Rib.WithdrawalChanges | tpt-bgp/src/rib.rs:185-199 | for every list of candidates: a withdrawal keeps the best route exactly when it is not withdrawn and beats the best that is left of those before it |
| Rib.ReportIsRight | tpt-bgp/src/rib.rs:185-199 | the report says that the entry changed, as documented, exactly when the best route does not survive in that sense; where one route beats all the rest, it survives exactly unless its own peer withdraws |
| Rib.LoserWithdrawalChanges | tpt-bgp/src/rib.rs:106-116 | on a MED circle the entry changes although another peer withdraws |
| Rib.ReportsNoChange | tpt-bgp/src/rib.rs:185-199 | a withdrawal by a peer without routes for an entry leaves both tables as they were and is reported as a change |
| Rib.LocHasAdjKeys | tpt-bgp/src/rib.rs:145-152 | with the default decision process the Loc-RIB has exactly the prefixes of the Adj-RIB-In |
| Rib.Run | tpt-bgp/src/rib.rs:154-218 | after every run the tables are the history's and the Loc-RIB is their exact index |
| Fsm.AlwaysConsistent | tpt-bgp/src/fsm.rs:139-346 | over every event sequence Active is never reached, and an identifier is known exactly in OpenConfirm and Established |
| Fsm.NoCollisionInOpenSent | tpt-bgp/src/fsm.rs:223-240 | so the collision branch in OpenSent never fires |
| Fsm.EstablishedHistory | tpt-bgp/src/fsm.rs:139-346 | Established was preceded, since the last Idle, by a sent OPEN, then a valid OPEN with the identifier held, then a KEEPALIVE, with only OpenSent, OpenConfirm and Established in between |
| Fsm.FallingBackRearms | tpt-bgp/src/fsm.rs:139-346 | every fall to Idle restarts the IdleHold timer, whose expiry dials again |
| Fsm.Machine.OnEvent | tpt-bgp/src/fsm.rs:139-346 | next state, identifier and actions are those of the transition tables |
| BgpCodec.PrefixParses | tpt-bgp/src/attributes.rs:640-670 | a prefix whose bytes past its length are zero is read back |
| BgpCodec.SegmentParses | tpt-bgp/src/attributes.rs:257-293 | an AS_PATH segment is read back in both AS widths |
| BgpCodec.ReachParses | tpt-bgp/src/attributes.rs:586-614 | MP_REACH_NLRI with its next hop and prefixes is read back |
| BgpCodec.UnreachParses | tpt-bgp/src/attributes.rs:616-637 | MP_UNREACH_NLRI is read back |
| BgpCodec.AttributeParses | tpt-bgp/src/attributes.rs:477-583 | every attribute, with extended lengths and unknown types, is read back whatever follows |
| BgpImage.AttributeRoundTripIff | tpt-bgp/src/attributes.rs:477-583 | an attribute comes back from its encoding exactly when it fits the format: lengths and AS numbers in range, no bytes past a prefix's length, no known type as an unknown one |
| BgpImage.UpdateRoundTripIff | tpt-bgp/src/wire.rs:454-511 | decode(encode(u)) = u in both AS widths exactly when its attributes and prefixes do so and its parts fit their length fields |
| BgpImage.DecodedStays | tpt-bgp/src/wire.rs:454-511 | whatever is decoded, from any bytes, comes back from its encoding |
| BgpMessages.OpenParses | tpt-bgp/src/wire.rs:323-450 | what a peer understands of every OPEN |
| BgpMessages.OpenRoundTripIff | tpt-bgp/src/wire.rs:323-450 | an OPEN survives exactly when its first As4 capability, or in a two-octet session its short ASN, tells its ASN |
| BgpMessages.RealAsnArrives | tpt-bgp/src/wire.rs:323-361 | in a four-octet session without a listed capability the real ASN arrives |
| BgpMessages.MessageRoundTrip | tpt-bgp/src/wire.rs:252-318 | whole messages with their header survive; an OPEN arrives as its peer understands it |
| BgpMessages.MarkerIgnored | tpt-bgp/src/wire.rs:284-318 | messages that differ only in the sixteen bytes of the marker are decoded alike |
| BgpStream.FillAddress | tpt-bgp/src/attributes.rs:656-660 | address bytes read one at a time into a zeroed buffer |
| BgpStream.ReadPrefixes | tpt-bgp/src/attributes.rs:604-607 | the loop until the bytes run out |
| BgpStream.ReadPath | tpt-bgp/src/attributes.rs:272-293 | the two nested loops of the AS_PATH decoder |
| BgpStream.ReadAttribute | tpt-bgp/src/attributes.rs:521-583 | the cursor decoder of one attribute, errors included |
| BgpStream.ReadUpdate | tpt-bgp/src/wire.rs:476-511 | the cursor decoder of UPDATE computes the specified result for every input |
| BgpStream.WritePath | tpt-bgp/src/attributes.rs:257-269 | the encoder loops, truncating ASNs in two-octet form |
| BgpStream.WriteUpdate | tpt-bgp/src/wire.rs:454-474 | the encoder loops of UPDATE |
| Wire.ManyReads | tpt-bgp/src/attributes.rs:272-293 | repeating a parser until the bytes run out inverts concatenating encodings |
| Wire.Reader.Bytes | tpt-dtls/src/wire.rs:118-125 | reads n bytes or reports a short buffer |
| Wire.Reader.Number | tpt-dtls/src/wire.rs:128-142 | big-endian numbers of any width |
| Wire.Reader.Vector | tpt-dtls/src/wire.rs:153-168 | length-prefixed vectors |
| Wire.Writer.Vector | tpt-dtls/src/wire.rs:73-91 | length-prefixed vectors |
| DtlsCodec.ExtensionsParse | tpt-dtls/src/handshake.rs:323-341 | a list of extensions is read back |
| DtlsCodec.ClientHelloParses | tpt-dtls/src/handshake.rs:350-460 | a ClientHello is read back |
| DtlsCodec.ServerHelloParses | tpt-dtls/src/handshake.rs:464-525 | a ServerHello or HelloRetryRequest is read back |
| DtlsCodec.CertificateParses | tpt-dtls/src/handshake.rs:539-555 | a Certificate is read back |
| DtlsCodec.BodyParses | tpt-dtls/src/handshake.rs:232-246 | parse(encode(m)) = m for every body whose lengths fit |
| DtlsCodec.MessageRoundTrip | tpt-dtls/src/handshake.rs:260-296 | decoding a whole message returns it, so re-encoding what was received gives the bytes that were sent |
| DtlsCodec.EncodeInjective | tpt-dtls/src/handshake.rs:260-272 | different messages have different bytes |
| DtlsStream.WriteClientHello | tpt-dtls/src/handshake.rs:350-403 | the writer loops produce the specified bytes |
| DtlsStream.ReadExtensions | tpt-dtls/src/handshake.rs:331-341 | the extension loop |
| DtlsStream.FindExtension | tpt-dtls/src/handshake.rs:343-347 | the first extension of a kind |
| DtlsStream.ReadClientHello | tpt-dtls/src/handshake.rs:405-460 | the cursor parser computes the specified result for every input |
| Reassembly.Reassembler.Add | tpt-dtls/src/handshake.rs:646-665 | rejects exactly the fragments out of range, unchanged; otherwise writes and marks the bytes, and answers exactly when all are marked |
| Reassembly.Reassemble | tpt-dtls/src/handshake.rs:628-665 | pieces of one message, from any fragmentations, in any order and with repeats, never fail and give the message exactly from the moment every byte is covered |
| Reassembly.Fragment | tpt-dtls/src/handshake.rs:590-618 | the fragments sent are the specified cut of the message, whose length is cut down to 32 bits; an empty one gives a single ClientHello header |
| Reassembly.CutCovers | tpt-dtls/src/handshake.rs:603-617 | every fragment is a piece of the message of 1 to max bytes, and together they cover it |
| Reassembly.FrameCarriesPiece | tpt-dtls/src/handshake.rs:603-617 | a fragment's bytes parse back to its header and piece |
| Reassembly.AllFragmentsSuffice | tpt-dtls/src/handshake.rs:590-665 | receiving all fragments of one fragmentation, among anything else, covers the message |
| DtlsMessages.TranscriptInjective | tpt-dtls/src/connection.rs:322-336 | the transcript bytes determine the messages in it |
| DtlsAgreement.ServerFinishedAgrees | tpt-dtls/src/connection.rs:626-666 | a Finished that the client accepts was built over the client's own transcript, with its keys |
| DtlsAgreement.ClientFinishedAgrees | tpt-dtls/src/connection.rs:825-863 | a Finished that the server accepts was built over the server's own transcript |
| DtlsAgreement.RunKeeps | tpt-dtls/src/connection.rs:549-863 | the invariant of both endpoints over every schedule |
| DtlsAgreement.ClientAgreement | tpt-dtls/src/connection.rs:584-694 | over every schedule of drops, duplicates and reorderings, a connected client accepted a Finished over exactly the transcript the server had when building it, shares its handshake keys and suite, and holds its key |
| DtlsAgreement.ServerAgreement | tpt-dtls/src/connection.rs:725-863 | over every schedule, once the server is connected so is the client, with equal transcripts, equal application keys and each other's key |
| DtlsLossFree.LossFreeConnects | tpt-dtls/src/connection.rs:282-863 | with every record delivered once in order, both sides connect with equal keys |
| DtlsConnection.Connection.SendHandshake | tpt-dtls/src/connection.rs:322-336 | appends the encoding to the transcript and queues the record |
| DtlsConnection.Connection.SendOwnFlight | tpt-dtls/src/connection.rs:669-694 | Certificate, CertificateVerify and Finished over the growing transcript |
| DtlsConnection.Connection.HandleRetry | tpt-dtls/src/connection.rs:584-602 | records the retry request and answers with the cookie |
| DtlsConnection.Connection.HandleServerHello | tpt-dtls/src/connection.rs:604-624 | derives the handshake keys over the transcript including the ServerHello |
| DtlsConnection.Connection.ClientOnMessage | tpt-dtls/src/connection.rs:556-582 | the client's dispatch by message and state |
| DtlsConnection.Connection.HandleClientHello | tpt-dtls/src/connection.rs:725-794 | retry, cookie check, key agreement and the server's whole response; a refused hello stays in the transcript |
| DtlsConnection.Connection.HandleClientFinished | tpt-dtls/src/connection.rs:841-859 | the server connects on a matching Finished |
| DtlsConnection.Connection.ServerOnMessage | tpt-dtls/src/connection.rs:700-720 | the server's dispatch by message and state |
| DtlsConnection.Connection.DeriveHandshakeSecrets | tpt-dtls/src/connection.rs:925-939 | both handshake traffic keys from the shared secret and the transcript hash |
| DtlsConnection.Connection.DeriveAppSecrets | tpt-dtls/src/connection.rs:942-957 | both application traffic keys over the transcript with the client's Finished |
| LeaseStore.ScanFinds | tpt-dhcpv6/src/memory.rs:128-137 | a scan finds the first free candidate, wraps around past the last number, and reports none only when all are taken |
| LeaseStore.UnendingScan | tpt-dhcpv6/src/memory.rs:174-182 | a scan said not to end never meets a free candidate, nor one past the end |
| LeaseStore.ThirdCallEndless | tpt-dhcpv6/src/memory.rs:174-182 | a state where it happens: with the whole space as a pool of two prefixes, the third client's call does not return |
| LeaseStore.PickedAddress | tpt-dhcpv6/src/memory.rs:100-138 | for every configuration: a picked address is in no lease and not declined, and the one asked for or the first free one; it is below the pool only if the pool is full and ends with the last address; each error has its cause |
| LeaseStore.PickedBlock | tpt-dhcpv6/src/memory.rs:140-183 | the same for delegated prefixes, whose candidates start at the pool's start made a base |
| LeaseStore.AcquireSafe | tpt-dhcpv6/src/memory.rs:292-319 | acquiring keeps the tables safe, for any request and any time |
| LeaseStore.DeclineSafe | tpt-dhcpv6/src/memory.rs:341-353 | declining keeps the tables safe |
| LeaseStore.AlwaysSafe | tpt-dhcpv6/src/memory.rs:292-353 | after every sequence of calls, with every prefix length that does not overflow: one resource per lease, nothing leased on a declined list, no two keys with the same address or base |
| LeaseStore.InPoolIff | tpt-dhcpv6/src/memory.rs:100-183 | what is granted lies in its pool exactly unless the scan starts below an unaligned pool or wraps around from a full one |
| LeaseStore.AlwaysInPoolIff | tpt-dhcpv6/src/memory.rs:292-353 | over every run, all leases are always in their pools exactly when no call that grants something does so; with an aligned prefix pool, and room for one more step after both pools, none does |
| LeaseStore.UnalignedStrays | tpt-dhcpv6/src/memory.rs:174-179 | the first prefix from an unaligned pool lies below it |
| LeaseStore.FullPoolStrays | tpt-dhcpv6/src/memory.rs:128-137 | from a pool with just the last address, the second client gets address zero |
| LeaseStore.GrantedLength | tpt-dhcpv6/src/memory.rs:163-172 | the prefix granted has the pool's length exactly when the request does not ask for a shorter one |
| LeaseStore.OverlapIff | tpt-dhcpv6/src/memory.rs:163-172 | two prefixes share an address exactly when the base of the longer one lies in the shorter one |
| LeaseStore.GrantDisjointIff | tpt-dhcpv6/src/memory.rs:163-172 | a granted prefix leaves all prefixes disjoint exactly when no leased base lies in it and its base in no leased prefix, the test the source does not make |
| LeaseStore.NoOverlap | tpt-dhcpv6/src/memory.rs:140-183 | over every run, no two keys ever hold overlapping prefixes exactly when every prefix passed that test when it was granted; all do if nobody asks for a shorter prefix than the pool's |
| LeaseStore.WholeInPool | tpt-dhcpv6/src/memory.rs:163-172 | all of a prefix lies between the pool's bounds exactly when its first and its last address do |
| LeaseStore.ShorterRequestOverlaps | tpt-dhcpv6/src/memory.rs:163-172 | a shorter request makes the next free prefix of another key overlap with it, for every shorter length |
| LeaseTable.MemoryLeaseStore.Scan | tpt-dhcpv6/src/memory.rs:128-137 | the wrapping loop finds what the specification says, whenever it ends |
| LeaseTable.MemoryLeaseStore.ChooseAddress | tpt-dhcpv6/src/memory.rs:100-138 | address choice with its three errors |
| LeaseTable.MemoryLeaseStore.ChooseBlock | tpt-dhcpv6/src/memory.rs:140-183 | prefix choice with its three errors |
| LeaseTable.MemoryLeaseStore.DropExpired | tpt-dhcpv6/src/memory.rs:185-189 | removes expired leases and served probations |
| LeaseTable.MemoryLeaseStore.AcquireLease | tpt-dhcpv6/src/memory.rs:292-319 | renews or allocates, and keeps the store safe, whenever the scan ends |
| LeaseTable.MemoryLeaseStore.ConfirmLease | tpt-dhcpv6/src/memory.rs:321-333 | renews an existing lease, expired or not |
| LeaseTable.MemoryLeaseStore.ReleaseLease | tpt-dhcpv6/src/memory.rs:335-339 | forgets the lease |
| LeaseTable.MemoryLeaseStore.DeclineLease | tpt-dhcpv6/src/memory.rs:341-353 | forgets the lease and puts its resources on probation |
| HttpDate.TomorrowCounts | tpt-http-cache/src/time.rs:15-23 | days_from_civil advances by exactly one from every Gregorian date to the next |
| HttpDate.EpochIsZero | tpt-http-cache/src/time.rs:13-23 | the count is zero on 1970-01-01 |
| HttpDate.WeekdaysRun | tpt-http-cache/src/time.rs:26-29 | weekdays run through the week |
| HttpDate.EpochIsThursday | tpt-http-cache/src/time.rs:26-29 | and the epoch is a Thursday |
| HttpDate.CivilInverse | tpt-http-cache/src/time.rs:152-163 | the date found for a day is valid and counts back to it, except on the last day of a 400-year era |
| HttpDate.EraEndIsOffByOne | tpt-http-cache/src/time.rs:156 | on that day, a 29 February, the date found is 1 March |
| HttpDate.CivilInverseIff | tpt-http-cache/src/time.rs:152-163 | the inverse holds exactly on the other days |
| HttpDateText.FormatThenParse | tpt-http-cache/src/time.rs:69-169 | parse(format(t)) is t to the second, and a day later on the last day of an era |
| HttpDateText.ImfParses | tpt-http-cache/src/time.rs:112-125 | every IMF-fixdate parses to its date with a year up to 99 taken for a year of the twentieth century; so to the instant it names exactly for other years, or up to 69, where neither year has an instant, but for the leap second at the end of 1969 |
| HttpDateText.AsctimeParses | tpt-http-cache/src/time.rs:77-90 | the same for asctime dates, with their space-padded day |
| HttpDateText.Rfc850Parses | tpt-http-cache/src/time.rs:105-111 | the RFC 850 text of every date parses to that date in the twentieth century; so to the instant of the date exactly in that century, or before it when its last two digits are below 70, but for that leap second |
| HttpDateText.WrongCentury | tpt-http-cache/src/time.rs:55-63 | an RFC 850 date of 2094 and an IMF-fixdate of the year 94 are read as dates of 1994 |
| StructuredFields.StringParses | tpt-http-sig/src/sf.rs:100-139 | an escaped string is read back whatever follows |
| StructuredFields.IntegerParses | tpt-http-sig/src/sf.rs:141-156 | every 64-bit integer is read back |
| StructuredFields.ParamsParse | tpt-http-sig/src/sf.rs:177-199 | a parameter list with strings, integers and bare flags is read back |
| StructuredFields.InnerListRoundTrip | tpt-http-sig/src/sf.rs:201-240 | parsing inverts serializing for inner lists |
| StructuredFields.DictionaryRoundTrip | tpt-http-sig/src/sf.rs:273-301 | parsing inverts serializing for dictionaries |
| SfCursor.Cursor.QuotedString | tpt-http-sig/src/sf.rs:100-139 | the index-moving string parser, errors included |
| SfCursor.Cursor.Parameters | tpt-http-sig/src/sf.rs:177-199 | the parameter loop |
| SfCursor.Cursor.Items | tpt-http-sig/src/sf.rs:205-232 | the item loop |
| SfCursor.Cursor.NextInnerList | tpt-http-sig/src/sf.rs:201-240 | the inner-list parser computes and consumes what is specified, for every input |
| SfCursor.WriteInnerList | tpt-http-sig/src/sf.rs:362-374 | the appending serializer |
| HttpSignature.BuildSignatureBase | tpt-http-sig/src/signer.rs:24-54 | the base, line by line; repeated or underivable components are errors |
| HttpSignature.InputRoundTrip | tpt-http-sig/src/headers.rs:103-121 | the verifier reads back the signer's parameters, and the components with field names in lower case |
| HttpSignature.VerifierRebuildsBase | tpt-http-sig/src/signer.rs:286-292 | the verifier's base is the signer's, byte for byte, exactly when all components were in normal form |
| HttpSignature.BaseNames | tpt-http-sig/src/signer.rs:24-54 | equal bases have the same components and parameters, whatever the values |
| HttpSignature.BaseTells | tpt-http-sig/src/signer.rs:24-54 | a base is made from no other components, parameters or values, exactly when no value holds the separator before the next value or, but for the first, before itself; without line breaks none does |
| HttpSignature.BrokenLinesConfuse | tpt-http-sig/src/signer.rs:40-44 | with line breaks, different values make the same base |
| HttpSignature.EffectiveIsNormal | tpt-http-sig/src/components.rs:26-40 | parsed components are normal, so the round trip applies to them |
| HttpSignature.ListParams | tpt-http-sig/src/signer.rs:139-153 | the signature parameters in the order they are pushed |
| HttpSignature.HonestVerdict | tpt-http-sig/src/signer.rs:131-292 | an honest signature over components in normal form gets exactly the verdict of the policy; if the check accepts no other base, others are never accepted |
| HttpSignature.AcceptedMeansSigned | tpt-http-sig/src/signer.rs:131-292 | on any message, a signature is accepted exactly when the policy allows it, the components are normal and the message has the signed lines; these are the signed values when no value holds a separator |
| HttpSignature.DateIsNotNormal | tpt-http-sig/src/headers.rs:103-121 | the field name Date can be signed, is read back as date, and the verifier's base is another |
| Bfd.AlwaysInv | tpt-bfd/src/session.rs:275-350 | the invariant of both endpoints over every run |
| Bfd.EngagedKnowsPeer | tpt-bfd/src/session.rs:275-350 | a session in Init or Up knows its peer's discriminator, and is Up only if each side has accepted a packet from the other |
| Bfd.NothingDiscarded | tpt-bfd/src/session.rs:275-297 | no packet of an honest peer is ever discarded, whenever it arrives |
| Bfd.AdminDownStays | tpt-bfd/src/session.rs:200-211 | over every run: a session that was AdminDown and later is not has been brought up by admin_up in between |
| Bfd.ThreeWayUp | tpt-bfd/src/session.rs:318-342 | three packets bring two fresh sessions Up |
| BfdSession.Endpoint.ProcessPacket | tpt-bfd/src/session.rs:275-350 | discards, learns, advances and answers polls as specified |
| BfdSession.Endpoint.CheckTimeout | tpt-bfd/src/session.rs:388-411 | declares the session down exactly when its detection time has passed |
| BfdSession.Endpoint.NextPeriodic | tpt-bfd/src/session.rs:356-361 | a packet exactly when one may be sent |
| Bfd.BuiltIsHeard | tpt-bfd/src/session.rs:446-487 | what a session builds is accepted exactly by the one it addresses, or by everyone while it addresses none and is not engaged; who learns from it knows the sender's settings and detection time |

## Left out

- Bfd.AlwaysInv: packets are not authenticated; the SHA-1 sections and their sequence numbers are not modelled.
- DtlsAgreement.RunKeeps: `start` is called once; replay windows, retransmission timers and the record layer's headers are left out, as they only drop or repeat records, which every schedule may do.
- LeaseTable.MemoryLeaseStore.ConfirmLease: the renewal times T1 and T2, fractions computed in floating point, are not modelled.
- CborDecoder.Decoder.SimpleValue: floats are not modelled; in their place stands an error of its own.
- CborDecoder.Decoder.ArrayValue: reserving room for a declared length too large for memory (decoder.rs:155) panics; the model goes on and reports the end of the input.
- CborDecoder.Decoder.NextValue: floats and that panic are outside it.
- CborRoundTrip.IntegerRoundTrip: `i128::MIN` is encoded as with wrapping negation; with overflow checks the encoder panics.
- HttpDateText.ImfParses: 64-bit overflow of the day count, for years beyond some hundred billion, is not modelled; so for the other two formats.
- DtlsConnection.Connection.SendHandshake: the 16-bit message counter wraps around; with overflow checks the source's increment panics.
- Reassembly.Fragment: a limit that is zero modulo 2^32 is excluded, because the loop does not end.
- LeaseTable.MemoryLeaseStore.AcquireLease: calls whose scan does not end are excluded; `UnendingScan` says which those are.
- CBOR floats and the serde layer.
- Byte conversions and comparisons of field elements (from_bytes, to_bytes, is_zero, ct_eq), hash reduction of scalars: easy members.
- Ed25519 points, signing and verification: the addition formula is not the one its comment names.
- Masking of host bits in BGP prefixes: the codec is stated over the stored bytes; a prefix longer than its address, on which the encoder panics, cannot be written.
- The loop over several records in a DTLS datagram and its per-record reassembler; delivery is per message.
- Derivation of component values from HTTP messages, `Signature` header assembly, key material and algorithms.
- Structured Field text outside ASCII.
- Sockets, threads, wall clocks, UDP drivers; DHCPv4, HOTP, base64url, DoH, IMAP, CMS structures and certificate chains, HTTP cache policy.
