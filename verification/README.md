# Seven: a verified model

Seven observes moving objects, turns each observation into a canonical byte string, signs it as evidence, carries
the evidence over unreliable links, and fuses what arrives into a Gaussian belief per subject. This project models
that chain in Dafny, one module per part of the system, and proves that the parts compose: whatever the links lose,
repeat or reorder, what a node believes is the batch posterior of the set of observations that reached it.

| module | part of the system |
|---|---|
| `Basics`, `Postcard` | shared vocabulary; the varint and zigzag part of the Postcard wire format |
| `Core`, `Attitude` | seven-core: the canonical state and its bytes; quantisation and quaternion canonicalisation |
| `Powers`, `Rounding` | seven-core: the second quantisation under floating-point error, and binary64 itself |
| `Evidence` | seven-evidence: minting, forwarding, verification |
| `Mql`, `Lora`, `Quic` | seven-mql: projection onto messages, the radio frame, stream framing |
| `Rng`, `Events`, `Sim`, `Channel` | seven-sim and the event log: the lossy channel and its logged shuffle |
| `Gaussian`, `Belief`, `Engine` | seven-belief: the scalar update, one engine step on values, the engine as a class |
| `Convergence`, `Conflicts`, `EngineInvariants` | what every run of the engine satisfies |
| `Authenticity` | under an unforgeable signature scheme, what an engine accepts |
| `Sightings` | evidence that shows a state of a subject, and what a set of shown states makes an engine believe |
| `Replay`, `ReplayedChannel` | seven-replay: the replay state machine, and the channel's log replayed |
| `Pipeline` | seven-bin: the whole chain |
| `Radio` | nodes that hear some evidence over the radio link and some as messages |
| `Units` | which number of an observation ends up in which dimension of a track, in which unit |
| `Instances` | concrete values that meet the hypotheses together |

Code that changes things in place is a class or a method over an array and is proved against a function: the belief
engine against `Belief.Step`, the shuffle against `Sim.Shuffle`, the channel against `Channel.Arriving` and
`Channel.Logged`, replay against `Replay.Pass`, the stream loops against `Quic.BatchBytes` and `Quic.RecvBatch`,
reassembly against `Lora.Reassembled`. The theorems are about those functions and therefore about every run.

Assumptions are parameters or hypotheses, never axioms. `Instances` gives concrete values, among them cryptography and a
sender that meet the hypotheses of the end-to-end theorem for two different states:

- blake3 and ed25519 are the function fields of a `Crypto`. `SoundSigning` says that a signature has 64 bytes and
  verifies under its key. No function to 32 bytes is injective, so hashing is only assumed free of collisions on the
  payloads in play (`CollisionFree`).
- `Unforgeable` says that whatever is valid for a source was signed with a key of that source; only `Authenticity` uses
  it.
- The JSON codec of a stream message is a `Codec` that is `Lossless`: what it writes, it reads back.
- A random generator is an `Oracle`, a function of the seed and the draws made so far; `Bounded` says that an integer
  draw respects its inclusive bound and `UnitDraws` that the others are in [0, 1).
- Belief arithmetic is over the real numbers. The conflict test is squared, which `Belief.SquaredTest` justifies, and
  a vector norm is a parameter constrained by `IsNorm`. Re-quantisation is proved under rounding instead: for every
  division and multiplication whose relative error is at most 2^-53 where the exact result is zero or in the normal
  range of the doubles. `Rounding` also defines rounding to binary64, with its underflow, and proves that it qualifies.

Three things that the source says or suggests do not hold of its code. The model follows the code:

- A quantised quaternion is said to be in the canonical hemisphere (`crates/seven-core/src/lib.rs:178`, `:251`). A
  leading component of at most half a unit rounds to zero and the next one may be negative
  (`Attitude.QuantizationLeavesHemisphere`); `Attitude.EmittedHemisphere` gives the exact condition on the observation.
- Convergence does not follow from verification alone, because `verify` never relates the observation id to the
  payload (`Convergence.SharedIdMakesOrderMatter`). `Convergence.OrderIrrelevantIffConsistent` gives the exact
  condition, and `Pipeline.EndToEnd` shows that minted evidence always meets it.
- A malformed source id is said to be an explicit error (`crates/seven-mql/src/lib.rs:140-142`). The hex reader drops bad
  pairs and measures what is left, so two bad characters before a good id are accepted (`Mql.MalformedSourceIsAccepted`).
  `Mql.ParseHex32AcceptsIff` and `Mql.SourceIsReadIff` give the exact condition.

## Model

| member | source | states |
|---|---|---|
| Postcard.VarintRoundTrip | crates/seven-core/src/lib.rs:277-286 | A varint read back gives the number written and what follows it, and takes at most the groups a 64-bit number allows |
| Postcard.EncodeSpells | crates/seven-core/src/lib.rs:277-279 | The groups of a varint spell the number, least significant first, and exactly those that others follow carry the high bit |
| Postcard.ZigzagInterleaves | crates/seven-core/src/lib.rs:277-279 | Non-negative numbers take the even codes and negative ones the odd codes, in order of magnitude |
| Postcard.VarintReencodes | crates/seven-core/src/lib.rs:283-285 | A readable varint is the one the encoder writes exactly when its last group is not padding |
| Core.FieldsRoundTrip | crates/seven-core/src/lib.rs:277-286 | Any list of 64-bit fields is read back whole in front of any further bytes, and takes one to ten bytes a field |
| Core.CanonicalLayout | crates/seven-core/src/lib.rs:207-217 | The bytes are the eleven fields in declaration order, each a zigzag varint |
| Core.CanonicalRoundTrip | crates/seven-core/src/lib.rs:277-286 | Every state is recovered from its canonical bytes, also when bytes follow them, and has 11 to 110 bytes |
| Core.CanonicalPrefixFree | crates/seven-core/src/lib.rs:277-279 | No state's bytes are a prefix of another state's bytes, so the encoding is injective |
| Core.ReencodesIffMinimal | crates/seven-core/src/lib.rs:283-285 | Accepted bytes are the canonical bytes of what they decode to exactly when every varint is minimal and nothing follows |
| Core.DecodingIsNotInjective | crates/seven-core/src/lib.rs:283-285 | Trailing bytes are ignored: different bytes decode to one state |
| Attitude.TiesGoToEven | crates/seven-core/src/lib.rs:42-46 | Half-way values on either side of an even integer are rounded to it |
| Attitude.QuantizeIsNearest | crates/seven-core/src/lib.rs:37-46 | Every value is quantised to within half a unit of its product with the scale, or to the end of the 64-bit range beyond it |
| Attitude.RoundsToNearest | crates/seven-core/src/lib.rs:42-46 | A value strictly within half a unit of an integer is rounded to that integer |
| Attitude.QuantizedIsNearest | crates/seven-core/src/lib.rs:162-175 | A quantised unit component is within half a unit of the scaled value and at most 10^6 in magnitude |
| Attitude.CanonicalizedIsUnit | crates/seven-core/src/lib.rs:123-157 | Above the rejection threshold the result has norm 1 and a positive first nonzero component, and canonicalising it again changes nothing |
| Attitude.CanonicalizedIsCompleteInvariant | crates/seven-core/src/lib.rs:123-157 | Two quaternions have one canonical form exactly when one is a nonzero multiple of the other |
| Attitude.QuantizedUnitNorm | crates/seven-core/src/lib.rs:162-175 | Quantising any unit quaternion moves its squared norm by at most 2*10^6 + 1 in units of 10^-12 |
| Attitude.QuantizedHemisphere | crates/seven-core/src/lib.rs:162-179 | The quantised form keeps the sign rule exactly when the first component above half a unit is positive |
| Attitude.EmittedHemisphere | crates/seven-core/src/lib.rs:224-246 | The emitted attitude keeps the sign rule exactly when the first raw component above norm / 2,000,000 has the sign of the first nonzero one |
| Attitude.QuantizationLeavesHemisphere | crates/seven-core/src/lib.rs:224-251 | An observation that the pipeline accepts and whose emitted attitude breaks the sign rule |
| Attitude.CanonicalizeQuantizes | crates/seven-core/src/lib.rs:224-246 | An accepted observation keeps its time; each position and velocity is nearest to 1000 times the raw one, and the attitude to millionths of the normalised, signed one |
| Attitude.RejectionIsExplained | crates/seven-core/src/lib.rs:225-231 | A rejected observation names the first value that is not finite, in the order of position, velocity and attitude, or else the norm |
| Attitude.CanonicalizeKeepsUnitNorm | crates/seven-core/src/lib.rs:224-246 | The pipeline accepts exactly the finite observations with a norm above the threshold, and bounds the attitude it emits |
| Attitude.CanonicalizeIgnoresAttitudeScale | crates/seven-core/src/lib.rs:224-246 | Observations whose attitudes are nonzero multiples of each other have one canonical state |
| Rounding.RecanonicalizeRoundsProducts | crates/seven-core/src/lib.rs:256-269 | For any arithmetic and state, the attitude becomes the nearest integers to the computed products and everything else is kept |
| Rounding.RequantizeIsIdentity | crates/seven-core/src/lib.rs:257-262 | Dividing by 10^6 and quantising again returns every integer up to 2^50, whatever the relative errors up to 2^-53 on normal results |
| Rounding.RecanonicalizeIsIdentity | crates/seven-core/src/lib.rs:256-269 | Recanonicalising a state in that range is the identity under any such arithmetic |
| Rounding.CanonicalizationIsIdempotent | crates/seven-core/src/lib.rs:248-269 | Every state the pipeline emits is in that range, so recanonicalising it changes nothing |
| Rounding.FormatIsAccurate | crates/seven-core/src/lib.rs:42-46 | Rounding to the nearest number of any 53-bit format that reaches down as far as binary64, ties to even and with gradual underflow, meets the error bound on zero and normal results |
| Rounding.Binary64IsAccurate | crates/seven-core/src/lib.rs:42-46 | In particular binary64 does |
| Rounding.SignificandFits | crates/seven-core/src/lib.rs:42-46 | That rounding keeps at most 53 significant bits, so it is not a finer arithmetic than the code's |
| Rounding.Binary64IsIdempotent | crates/seven-core/src/lib.rs:256-269 | With binary64 arithmetic recanonicalising what the pipeline emits changes nothing |
| Evidence.ForwardAllKeeps | crates/seven-evidence/src/lib.rs:168-173 | A chain of forwards appends exactly its hops and restamps the receipt; every other field is untouched |
| Evidence.MintVerifies | crates/seven-evidence/src/lib.rs:136-206 | Originated evidence verifies after any forwards and decodes to the state it was minted from |
| Evidence.SameObservationIffSameState | crates/seven-evidence/src/lib.rs:130-162 | Without collisions, minted evidences share an observation id exactly when they observed one state, and exactly when payloads agree |
| Evidence.MintedFields | crates/seven-evidence/src/lib.rs:136-173 | Every field of minted and forwarded evidence, times, key, provenance, parents and signature included, comes from its origin and relays |
| Evidence.DomainTagText | crates/seven-evidence/src/lib.rs:179 | The domain tag is the text of the source |
| Evidence.PreimageBindsIdentity | crates/seven-evidence/src/lib.rs:175-183 | Two preimages are equal exactly when evidence id and payload are, and each starts with the domain tag |
| Evidence.VerdictOnBytes | crates/seven-evidence/src/lib.rs:191-206 | Evidence is accepted exactly when its id is the digest of the payload and a 64-byte signature is valid for tag, id and payload under its source; a wrong digest is reported first |
| Evidence.ExchangedSignature | crates/seven-evidence/src/lib.rs:197-205 | Verified evidence whose signature is removed or exchanged is refused for its signature unless the new one is valid for the same bytes |
| Evidence.TamperingIsDetected | crates/seven-evidence/src/lib.rs:185-206 | Exchanging the payload of verified evidence is an identity mismatch exactly when the payload changes, barring a collision |
| Authenticity.VerifiedIffAuthentic | crates/seven-evidence/src/lib.rs:185-206 | Under an unforgeable scheme evidence is accepted exactly when its source signed its id and payload |
| Authenticity.ForgeryIsIgnored | crates/seven-belief/src/lib.rs:112-115 | Forged evidence is refused with the error of its verdict and leaves the whole engine as it was |
| Authenticity.ForgeriesLeaveNoTrace | crates/seven-belief/src/lib.rs:112-115 | A run ends as it would had no forged evidence been delivered |
| Authenticity.AcceptedWasOriginated | crates/seven-evidence/src/lib.rs:129-133 | All evidence that ever counts carries a state that the key holder of its source originated |
| Lora.Layout | crates/seven-mql/src/lora.rs:14-19 | Every field of an encoded frame lies where the wire format puts it, and nothing else follows |
| Lora.EncodeIff | crates/seven-mql/src/lora.rs:79-93 | A frame can be encoded exactly when its payload fits the length byte and its signature has 64 bytes, each failure with its own error |
| Lora.DecodeIff | crates/seven-mql/src/lora.rs:111-164 | Bytes are decoded exactly when they have a version 1 header and the length that it announces, each failure with its own error |
| Lora.EncodeFrame | crates/seven-mql/src/lora.rs:79-108 | Growing the output buffer field by field yields the frame or the error of the specification |
| Lora.FrameRoundTrip | crates/seven-mql/src/lora.rs:79-173 | Decoding inverts encoding on every frame that can be encoded |
| Lora.DecodedFrameReencodes | crates/seven-mql/src/lora.rs:111-173 | Decoded bytes are the encoding of their frame except for bits 1 to 7 of the flag byte |
| Lora.FramePrefixFree | crates/seven-mql/src/lora.rs:79-108 | No encoded frame is a proper prefix of another |
| Lora.ForwardedFrame | crates/seven-mql/src/lora.rs:67-76 | After any forwards the frame carries the hop count saturated at 255, and evidence rebuilt around its fields verifies as the original does |
| Lora.MintedFrameSize | crates/seven-mql/src/lora.rs:41-49 | A signed frame of a state has 175 to 274 bytes and fits the 200-byte budget exactly when its payload has at most 36 |
| Lora.FragmentsExactly | crates/seven-mql/src/lora.rs:187-210 | Fragmentation fails exactly for an mtu up to 6, an empty frame or more than 255 pieces; otherwise the pieces fit the mtu, are numbered and concatenate to the frame |
| Lora.Reassemble | crates/seven-mql/src/lora.rs:214-236 | Filling a slot array in arrival order, keeping the first of duplicates, computes the specified reassembly and errors |
| Lora.ReassemblyOfAnyList | crates/seven-mql/src/lora.rs:214-236 | Any list is reassembled exactly when it is not empty, of one frame and one positive total, with all indexes below the total and every index present; the result is the first chunk of every index in order |
| Lora.ReassemblyOfMisfit | crates/seven-mql/src/lora.rs:223-231 | The first fragment of another frame or total, or with too large an index, decides the error |
| Lora.ReassemblyErrors | crates/seven-mql/src/lora.rs:215-234 | Empty lists, zero totals and missing indexes have their own errors |
| Lora.ReassemblyIsExact | crates/seven-mql/src/lora.rs:212-236 | Any non-empty list drawn from the fragments, in any order with any repeats, gives back the frame when every index occurs and an error otherwise |
| Lora.MintedFrameTravels | crates/seven-mql/src/lora.rs:186-236 | At the packet ceiling minted evidence takes at most two fragments and is decoded from any complete set of them |
| Quic.FrameLayout | crates/seven-mql/src/quic.rs:46-61 | A frame is a big-endian length followed by exactly that many body bytes |
| Basics.BigEndianOrder | crates/seven-mql/src/quic.rs:46-69 | A length prefix is read with its most significant byte first |
| Quic.AnnouncedLengthDecides | crates/seven-mql/src/quic.rs:65-82 | Any announced length above the limit is refused on receive before the body; within it the receiver waits for the body and passes exactly the body to the codec |
| Quic.EncodeFrameIff | crates/seven-mql/src/quic.rs:47-56 | A message is refused exactly when it has no body or its body is above the limit |
| Quic.FrameDecodes | crates/seven-mql/src/quic.rs:47-82 | A frame in front of any bytes decodes to its message and its own length |
| Quic.FrameRoundTripIffLengthFits | crates/seven-mql/src/quic.rs:47-82 | An encoded frame decodes as a whole exactly when its body length fits the 32-bit prefix |
| Quic.PrefixOfFrameWaits | crates/seven-mql/src/quic.rs:63-78 | Every strict prefix of a frame asks for more bytes |
| Quic.DecodeIsStable | crates/seven-mql/src/quic.rs:65-82 | Once a buffer yields a message or an error, appended bytes never change the answer |
| Quic.ChunkingIsIrrelevant | crates/seven-mql/src/quic.rs:63-82 | Draining a stream chunk by chunk gives the messages, remainder and error of draining all bytes at once, for every split |
| Quic.StreamDeliversInOrder | crates/seven-mql/src/quic.rs:47-82 | Concatenated frames received in any split yield exactly the sent messages in order |
| Quic.SendMessages | crates/seven-mql/src/quic.rs:259-289 | The loop appends the count and the frames up to the first message that cannot be encoded, and finishes the stream only without an error |
| Quic.ReadFrame | crates/seven-mql/src/quic.rs:229-248 | Reading length and body off the stream gives the specified frame or error and consumes exactly the frame |
| Quic.RecvMessages | crates/seven-mql/src/quic.rs:297-339 | The loop gives the specified batch or error and consumes exactly the batch |
| Quic.RecvFrameIsDecodeFrame | crates/seven-mql/src/quic.rs:314-336 | One turn of the loop is one frame decoding of the pending bytes, with waiting turned into a read error |
| Quic.BatchLoopIsDrain | crates/seven-mql/src/quic.rs:312-339 | The loop succeeds exactly when the bytes hold enough frames, and returns the first ones that draining decodes |
| Quic.BatchRoundTrip | crates/seven-mql/src/quic.rs:251-339 | A batch of messages that fit their frames, whatever the limit, is sent; receiving it returns the list and consumes it exactly, and every strict prefix is an error |
| Quic.BatchStopsAtFirstBad | crates/seven-mql/src/quic.rs:277-283 | A batch stops at its first message that cannot be encoded, with the count and the earlier frames written |
| Quic.BatchIsSentIffFramable | crates/seven-mql/src/quic.rs:259-289 | Below a limit of 2^32 bytes a batch is sent without error exactly when it is such a batch |
| Mql.HexRoundTrip | crates/seven-mql/src/lib.rs:218-244 | Reading back the hexadecimal text of bytes gives the bytes |
| Mql.HexText | crates/seven-mql/src/lib.rs:218-231 | Each byte is written as two lower-case digits, the high one first |
| Mql.PairsRead | crates/seven-mql/src/lib.rs:232-234 | A pair is read from digits of either case, or a plus sign and a digit |
| Mql.HexBytesCounts | crates/seven-mql/src/lib.rs:232-234 | The reader panics exactly on an odd length and otherwise yields one byte for every good pair |
| Mql.ParseHex32AcceptsIff | crates/seven-mql/src/lib.rs:235-244 | An id is read exactly from even lengths with 32 good pairs, and the reader panics exactly on odd lengths |
| Mql.SourceIsReadIff | crates/seven-mql/src/lib.rs:140-146 | A source id is read exactly when absent, or a text of even length with 32 good pairs |
| Mql.MalformedSourceIsAccepted | crates/seven-mql/src/lib.rs:140-146 | For every projected evidence, two bad characters before the source id do not change what is recovered |
| Mql.SubjectSegments | crates/seven-mql/src/lib.rs:53-63 | An accepted subject splits into exactly seven, the domain, the subject id and evidence |
| Mql.ExtensionsReadBack | crates/seven-mql/src/lib.rs:117-164 | Every reader of the extensions recovers what the projection put there, provenance and parents included |
| Mql.ProjectedWire | crates/seven-mql/src/lib.rs:81-103 | The message is an event under the four-part subject with the payload bytes and, under their wire names, all extensions |
| Mql.ProvenanceWire | crates/seven-mql/src/lib.rs:87 | A provenance is an object with the list of its hops, each an object with node and receipt time |
| Mql.ProjectedIff | crates/seven-mql/src/lib.rs:53-63 | Evidence is refused exactly for an empty or dotted domain or subject or one that the grammar refuses |
| Mql.RecoveredIff | crates/seven-mql/src/lib.rs:113-156 | A message is recovered exactly when it carries decodable postcard bytes, readable extensions and a subject of the four-part form, whose third part is the evidence's subject |
| Mql.KeptParent | crates/seven-mql/src/lib.rs:127-135 | A string that reads as an id is kept as that id, any other value is left out |
| Mql.ParentsOfAppend | crates/seven-mql/src/lib.rs:127-135 | The parents of two lists together are the parents of each, in order, and one value yields what it is kept as |
| Mql.ExpiryIsRead | crates/seven-mql/src/lib.rs:161-164 | An expiry is read from a whole number in the 64-bit range; anything else means none |
| Mql.OlderMessage | crates/seven-mql/src/lib.rs:123-164 | Without the newer extensions the zero key, no expiry, and no provenance, parents or signature are recovered |
| Mql.ProjectionRoundTrip | crates/seven-mql/src/lib.rs:81-179 | Projecting and recovering gives the evidence with the receipt time cleared exactly when the payload decodes to a state of the stated time; an undecodable payload is an error |
| Mql.ProjectionKeepsVerdict | crates/seven-mql/src/lib.rs:105-179 | The recovered evidence verifies exactly like the original, valid or not |
| Mql.MintedProjection | crates/seven-mql/src/lib.rs:81-179 | Minted evidence is recovered with only the receipt time cleared, and verifies |
| Rng.XorIsBitwise | crates/seven-sim/src/lib.rs:59 | A bit of a combined seed is one exactly when the two bits differ |
| Rng.CopiesByDraws | crates/seven-sim/src/lib.rs:61-73 | Nothing, one or two copies arrive exactly as draw 0 against the loss and draw 1 against the duplication probability decide |
| Rng.ExtremeProbabilities | crates/seven-sim/src/lib.rs:61-73 | Probability one always loses or, without loss, doubles; probability zero never does |
| Mql.LossyMql.DeliverByDraws | crates/seven-mql/src/lib.rs:202-211 | What the in-memory transport delivers is decided by the draws in the same way |
| Sim.ReorderInPlace | crates/seven-sim/src/lib.rs:110-122 | The descending loop over the array performs the specified shuffle for choices within their bounds and logs exactly its swaps |
| Sim.EveryPermutationIsDrawn | crates/seven-sim/src/lib.rs:112-114 | Every permutation is what the loop makes of a stream for some generator with bounded draws |
| Sim.ShufflePermutes | crates/seven-sim/src/lib.rs:103-122 | The shuffle rearranges the stream and leaves every position above its index alone |
| Sim.ShuffleIsInjective | crates/seven-sim/src/lib.rs:112-121 | On distinct elements different choices give different results |
| Sim.ShuffleReaches | crates/seven-sim/src/lib.rs:112-121 | Every rearrangement is produced by some choices |
| Sim.ShuffleIsBijection | crates/seven-sim/src/lib.rs:103-122 | On distinct elements choices and permutations correspond one to one |
| Channel.LossyChannel.Send | crates/seven-sim/src/lib.rs:53-74 | Below the loss probability nothing arrives and a loss is logged; else below the duplication probability two copies arrive and a duplicate is logged; else one copy arrives and nothing is logged |
| Channel.LossyChannel.SendStream | crates/seven-sim/src/lib.rs:82-100 | Arrivals and appended events are those of the fates and choices drawn; the older log is an untouched prefix |
| Channel.FatesByDraws | crates/seven-sim/src/lib.rs:88-92 | The fate of every message of a stream is decided by the draws seeded with its own number |
| Channel.FatesSplit | crates/seven-sim/src/lib.rs:88-92 | A stream sent in two parts, the second numbered on, meets the same fates |
| Channel.ReordersByDraw | crates/seven-sim/src/lib.rs:93-98 | Two or more arrivals are shuffled exactly when their own draw is below the reorder probability |
| Channel.PerfectChannel | crates/seven-sim/src/lib.rs:82-100 | With all probabilities zero a stream arrives as sent and nothing is logged |
| Channel.DeadChannel | crates/seven-sim/src/lib.rs:61-65 | With certain loss nothing arrives and every message is logged as lost, in order |
| Channel.ArrivalsFromLog | crates/seven-sim/src/lib.rs:28-30 | With distinct ids, dropping lost and doubling duplicated ids recomputes what arrived |
| Channel.Conservation | crates/seven-sim/src/lib.rs:51-74 | Arrivals plus losses equal messages plus duplicates, for any ids |
| Channel.SwapsReplayShuffle | crates/seven-sim/src/lib.rs:103-122 | Applying the logged swaps performs the shuffle, and undoing them in reverse restores the stream |
| Channel.SwapsAreOrdered | crates/seven-sim/src/lib.rs:112-121 | Logged swaps have strictly decreasing sources and move to lower positions |
| Channel.LogIsCompleteAccount | crates/seven-sim/src/lib.rs:76-122 | For all fates and choices the appended events balance, are ordered, undo to the unshuffled stream and, with distinct ids, recompute the arrivals from the input |
| Gaussian.UpdateExtendsPosterior | crates/seven-belief/src/lib.rs:76-82 | One conjugate update turns the closed-form posterior of n measurements into that of n + 1 |
| Gaussian.PosteriorMeanEquation | crates/seven-belief/src/lib.rs:74-82 | The mean satisfies mean * (R + n * 10^9) = 10^9 * sum |
| Gaussian.VarianceShrinks | crates/seven-belief/src/lib.rs:74-82 | The variance satisfies var * (R + n * 10^9) = 10^9 * R, is positive, strictly decreasing and below R / n |
| Gaussian.MeanInHull | crates/seven-belief/src/lib.rs:74-82 | The mean stays in the hull of zero and the measurements |
| Belief.SquaredTest | crates/seven-belief/src/lib.rs:146-151 | The squared conflict test is the test on standard deviations |
| Belief.RunDescribesSubject | crates/seven-belief/src/lib.rs:87-167 | After any run, errors included, a subject's recorded ids, track and last evidence are those of its accepted evidence, the track being the closed-form posterior |
| Belief.RunHasClosedForm | crates/seven-belief/src/lib.rs:66-82 | After any run every dimension of a tracked subject satisfies both cross-multiplied equations with n accepted measurements, its variance is positive and below R / n, its mean is in the hull of zero and these, and the counter is 6n |
| Units.ReadingIsInMetres | crates/seven-belief/src/lib.rs:130-137 | The six dimensions of a state's reading are its position and velocity fields in thousandths, in this order |
| Units.PayloadIsInMetres | crates/seven-belief/src/lib.rs:122-137 | A payload contributes exactly when it decodes, and then the fields of its state in this order and unit |
| Units.RunFusesFields | crates/seven-belief/src/lib.rs:66-82 | After any run every track satisfies both equations on the sums of the integer fields of its accepted evidence, with noise 25 for positions and 1 for velocities |
| Units.EndToEndFusesFields | crates/seven-bin/src/main.rs:19-43 | End to end every track satisfies them on the sums over the set of states that arrived |
| Units.ObservationIsRead | crates/seven-bin/src/main.rs:20-35 | From a raw observation through bytes, evidence, relays and message, each coordinate that is fused is within half a thousandth of the raw one, and the time is kept |
| Units.DisagreesBeyondThreeSigma | crates/seven-belief/src/lib.rs:146-151 | A reading disagrees exactly when in some dimension it is more than 3 predictive standard deviations, with noise 25 or 1, from the mean |
| Belief.RunHasConflicts | crates/seven-belief/src/lib.rs:129-156 | The conflicts of a run are exactly the accepted evidences that disagree with the posterior of those accepted before, each with its predecessor |
| Engine.GaussianBelief.UpdateDim | crates/seven-belief/src/lib.rs:76-82 | The in-place update changes one dimension and the counter as specified and nothing else |
| Engine.GaussianBelief.UpdateAll | crates/seven-belief/src/lib.rs:161-165 | The loop absorbs one reading in all six dimensions |
| Engine.BeliefEngine.FlagConflict | crates/seven-belief/src/lib.rs:146-157 | A conflict is flagged against the track before the update, and only conflicts and the last evidence change |
| Engine.BeliefEngine.AbsorbReading | crates/seven-belief/src/lib.rs:159-165 | The track of one subject is created if absent and updated in place; no other track changes |
| Engine.BeliefEngine.Incorporate | crates/seven-belief/src/lib.rs:114-167 | Every call, successful or not, performs one specified step on the whole state and keeps the tracks unshared |
| Convergence.AcceptedAreDecoded | crates/seven-belief/src/lib.rs:117-123 | Accepted evidence and decoded readings agree in number and in every sum |
| Convergence.RunIsBatch | crates/seven-belief/src/lib.rs:85-90 | The track of every subject is the order-free batch posterior of its set of readings |
| Convergence.EnginesConverge | crates/seven-belief/src/lib.rs:85-97 | Engines given the same observations in any order and multiplicity have equal tracks and recorded ids |
| Convergence.OrderIrrelevantIffConsistent | crates/seven-belief/src/lib.rs:106-113 | The tracks survive every rearrangement of the evidence exactly when one observation id carries one reading |
| Convergence.SharedIdMakesOrderMatter | crates/seven-evidence/src/lib.rs:191-206 | Two verified evidences under one id with different readings make the order matter |
| Conflicts.CloseIsNotFlagged | crates/seven-belief/src/lib.rs:146-151 | A measurement within W of earlier ones bounded by M is not flagged when W + M * R / 10^9 is at most three standard deviations of R |
| Conflicts.FarIsFlagged | crates/seven-belief/src/lib.rs:146-151 | A measurement beyond all earlier ones by more than three standard deviations of 2R plus M * R / 10^9 is flagged |
| Conflicts.AgreementIsNeverFlagged | crates/seven-belief/src/lib.rs:34-41 | A subject whose accepted measurements are that close in every dimension never appears in a conflict during the whole run |
| Conflicts.OutlierIsFlagged | crates/seven-belief/src/lib.rs:146-165 | Accepted evidence that far out in some dimension is flagged with its predecessor and still counted in the track |
| EngineInvariants.ConflictsAreConsecutive | crates/seven-belief/src/lib.rs:92-97 | Every conflict of a run pairs two consecutive accepted evidences of its subject |
| EngineInvariants.ConflictsAreBounded | crates/seven-belief/src/lib.rs:143-156 | Conflicts plus tracked subjects are at most the accepted evidences |
| EngineInvariants.RunInvariant | crates/seven-belief/src/lib.rs:87-98 | Tracked subjects are those with a last evidence, all have recorded ids, and the counts of updates, accepted, recorded and undecodable evidence agree |
| EngineInvariants.FailuresChangeNothing | crates/seven-belief/src/lib.rs:114-123 | Exactly which evidence has which outcome; unverified and duplicate evidence change nothing, undecodable evidence only records its id |
| EngineInvariants.ObservationCountsOnce | crates/seven-belief/src/lib.rs:117-120 | Verified evidence is a duplicate that changes nothing exactly when its observation was given to the engine before |
| Replay.ReplayEngine.ApplyEvent | crates/seven-replay/src/lib.rs:145-191 | Every event, successful or not, changes the whole state as specified |
| Replay.ReplayPass | crates/seven-replay/src/lib.rs:135-143 | The loop over the log gives the specified final state or the first failure with its index |
| Replay.ReplayTwice | crates/seven-replay/src/lib.rs:126-133 | Replaying twice never reports nondeterminism, whatever the fingerprint function, and returns the state or error of one pass |
| Replay.PassComputes | crates/seven-replay/src/lib.rs:145-191 | A successful replay ends with the maps of the log and the engine run on its observations |
| Replay.ReplayHasLastWriters | crates/seven-replay/src/lib.rs:145-191 | A message is seen exactly when its last send is not followed by a loss; nodes and keys hold their last status and write |
| Replay.PassFailsAtFirstFailure | crates/seven-replay/src/lib.rs:135-178 | Replay fails exactly at the first read of an unwritten key or failing observation, with that key or the verdict on that observation, and succeeds when there is none |
| Replay.FootprintSeparates | crates/seven-replay/src/lib.rs:193-219 | What the fingerprint reads is equal exactly when seen payloads, nodes, keys and tracks are |
| Replay.ObservationOrderDoesNotShow | crates/seven-replay/src/lib.rs:193-221 | Permuting or repeating valid observations and erasing events without effect changes neither success nor anything the fingerprint reads |
| ReplayedChannel.ReplayedTransfer | crates/seven-replay/src/lib.rs:153-160 | Replaying the sends of distinct messages and then what the channel logged leaves seen exactly the messages that arrived |
| Sightings.SightingsDecideTracks | crates/seven-belief/src/lib.rs:85-97 | However often and in whatever order sightings are shown, tracks and recorded ids are those of the set of states |
| Sightings.SameDeliveredIffSameSeen | crates/seven-evidence/src/lib.rs:130-162 | Without collisions the same subjects and observation ids were delivered exactly when the same states were seen |
| Pipeline.RecoveredShipment | crates/seven-bin/src/main.rs:27-35 | The message of minted evidence is recovered, verifies, and carries the minted state's reading under the id of its bytes |
| Pipeline.EndToEnd | crates/seven-bin/src/main.rs:19-38 | Under any loss, duplication and reordering, the track of every subject is the batch posterior of the set of its states that arrived |
| Pipeline.ArrivalsNeverFail | crates/seven-bin/src/main.rs:34-36 | Recovering and incorporating an arrival never fails; it is included exactly when its observation is new |
| Pipeline.IncorporateAll | crates/seven-bin/src/main.rs:30-36 | Incorporating sound evidence in order gives the run over all of it and tells of each whether it was included |
| Pipeline.NodesConverge | crates/seven-belief/src/lib.rs:85-86 | Nodes to which the same pairs of subject and observation id were delivered saw the same states and hold the same beliefs, whatever the shipments, relays, domains, order and multiplicity |
| Pipeline.NodesSeeingAlikeConverge | crates/seven-belief/src/lib.rs:85-86 | The same from equal sets of states per subject, with collisions excluded for each node by itself |
| Pipeline.SameShipmentsConverge | crates/seven-belief/src/lib.rs:85-86 | In particular nodes that receive the same shipments hold the same beliefs |
| Pipeline.BatchEndToEnd | crates/seven-mql/src/quic.rs:251-339 | Messages sent on as a batch are received and recovered, and incorporating them gives the batch posteriors |
| Pipeline.StreamEndToEnd | crates/seven-mql/src/quic.rs:47-82 | The same for messages framed on a stream whose bytes come in any chunks |
| Radio.RebuiltShows | crates/seven-mql/src/lora.rs:32-35 | Evidence rebuilt around the frame of a minted shipment verifies and shows the minted state under its id |
| Radio.LinksEndToEnd | crates/seven-mql/src/lora.rs:212-236 | Whatever mixture of radio fragments and messages a node hears, tracks are the batch posteriors of the delivered states |
| Radio.LinksConverge | crates/seven-belief/src/lib.rs:85-86 | Nodes to which the same subjects and observation ids were delivered hold the same beliefs, whichever link carried what |
| Pipeline.DeliveryIsCarried | crates/seven-mql/src/lib.rs:199-211 | What the lossy transport delivers is always a message that was sent, never altered |
| Pipeline.DeliveredIffSpared | crates/seven-bin/src/main.rs:19-30 | A message is delivered exactly when it is some shipment's and the loss draw for that shipment's number spares it |
| Pipeline.LosslessLinkDeliversAll | crates/seven-bin/src/main.rs:17 | With loss probability zero every shipment arrives |
| Pipeline.PerfectLinkDeliversInOrder | crates/seven-bin/src/main.rs:17-30 | On a link without faults every shipment's message arrives once and in order |
| Pipeline.RunPipeline | crates/seven-bin/src/main.rs:13-38 | The loop that mints, projects, delivers, recovers and incorporates ends with the batch posteriors of what the transport let through |

## Left out

- The metadata of a message other than its extensions, among it `causation_id`, which the comment at `crates/seven-mql/src/lib.rs:75-76` links to the origin: what `Metadata::new` puts there is not part of this model.
- seven-helix and seven-six are not part of this model: they are calls into a database client and a policy crate whose code is elsewhere.
- The IMU track of seven-belief, whose filter lives in another library; its gating mirrors the belief engine.
- The QUIC endpoint, TLS and key loading and the asynchronous plumbing: only the bytes written to and read from a stream are modelled, and reads and writes fail only at the end of the bytes.
- The internals of the random generator, of blake3, ed25519 and JSON, and the generator of noisy observations.
- The constructor of the lossy channel, which rejects probabilities outside [0, 1]: the theorems hold for all numbers.
- The freshness check of evidence and the hash of the event log: single comparisons and calls.
- Floating-point rounding in the belief update, in the norm and in the first quantisation; bitwise equality of tracks under reordering is not claimed. A norm that overflows to infinity is not modelled.
- The bytes that the state fingerprint hashes: the fingerprint is any function of the values it reads. The bytes are concatenated without delimiters, so equal bytes would not imply equal states.
- The remaining subject grammar of the message library is the parameter `grammar`; strings are ASCII, and JSON values have no floating-point numbers.
- The arrays inside a Gaussian belief are sequence fields that its methods reassign; in the source they are embedded in the record and cannot be shared either.
- Equality of `conflicts` across orders of delivery is not claimed: a conflict depends on which evidence came first.
- The frame of the radio link carries no subject; a listener is taken to know whom the frame is about.
- Sim.ReorderInPlace: the distribution of the choices is not modelled, only that each is within its bound.
- Replay.ReplayTwice: both passes are functions of the log here, so it shows that the comparison cannot fail, not that a machine's arithmetic is reproducible.
- Pipeline.RunPipeline: the subjects, states and keys are parameters instead of the three observations of the demonstration, and the statement that reads the final track is omitted.
