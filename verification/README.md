# InferLab checkers in Dafny

InferLab ships offline checkers that read the evidence of a run and decide whether it is
acceptable. This project models the checkers with the most logic in them and proves what an
accepting verdict means.

| modules | what they model |
|---|---|
| `Ring`, `Congruence`, `PrimeField`, `EdwardsCurve`, `EdwardsGroup` | arithmetic modulo Q by exponentiation and the addition law of the twisted Edwards curve, up to a full proof that the law is an abelian group |
| `ScalarMultiplication`, `PointRecovery`, `PointCodec`, `Signature`, `SignatureReuse`, `Constants`, `SmallCurve` | double-and-add, square roots, strict point decoding and both signature verifiers |
| `Outcome`, `Bytes`, `Utf8`, `CanonicalBytes`, `SigningBuffer` | the bytes that trust policies and receipts are signed over, with the decoder the repository does not have |
| `Sequences`, `Counting`, `Metrics`, `CatalogCheck`, `HistogramAudit`, `HistogramFamilies`, `Cardinality`, `Saturation`, `Tightness`, `HistogramResults`, `CounterScan` | the bounded-cardinality audit of metrics documents and the scan for decreasing counters |
| `HandoffData`, `Handoff`, `HandoffSafety`, `HandoffRuns`, `LiveRejections`, `LiveRejectionRuns` | the sequential key handoff and the two validators of the live rejection document |
| `Percentiles`, `ChaosSummary`, `ChaosTimeline`, `ChaosPhases`, `CircuitSegments` | latency percentiles, half-second bins, fault phases and circuit segments of a chaos run |

Code that computes from its inputs is written as functions; loops are methods proved against
them, and the `bytearray` is a class whose methods append in place. A raised Python exception
is `None` of `Outcome.Option` (or `IndexError` of `Percentiles.Answer`).

Lemmas over structured data carry `{:induction false}`, whether or not they recurse: every
induction here is written out, and the automatic hypotheses of Dafny 4.11 speak of values of any
type, which can make a lemma over two kinds of sequences hold for no reason.

## Hypotheses

The curve results take a curve record `c`. `Lawful(c)` says that `q` is prime, `q % 8 == 5`,
`i * i` is `-1` modulo `q` and `d` is not a square modulo `q`. `Generated(c)` adds that the base
point lies on the curve and has order `l`. `Constants.Ed25519Generated` reduces this, for the
constants of the checkers, to four facts that stay hypotheses: 2^255 - 19 is prime, D is not a
square, the base ordinate belongs to a point of the curve, and that point has order L. The
group law (closure, associativity, inverses), Fermat's theorem, `I * I == -1` and the
non-vanishing of both denominators are proved, not assumed. Agreement of the two verifiers,
the range of the recovered root, canonical re-encoding, injectivity of decoding and the
preservation of the identity need only that `q` is odd, or nothing. `SmallCurve.SmallGenerated`
shows that the hypotheses can be met together, on a curve modulo 13.

`SignatureReuse` also needs that `l` is prime.

SHA-512, base64 and the parsing of a decimal boundary are function parameters.

## What the code does that a reader may not expect

- Of the two verifiers one tests `x >= Q` and compares both points with the identity; these
  tests never fire, so the verifier without them gives the same verdict everywhere
  (`PointCodec.DecodersAgree`, `PointCodec.DecodeNeverIdentity`, `Signature.VerifiersAgree`).
- The theoretical number of series is an upper bound for every catalog, but it is attained
  only for saturable ones. `Saturable` is a test on the catalog alone: no two families share a
  sample name; families with the same metadata name agree in type and unit; every family has a
  label set; the allowed values of route, method and service admit what the route relation and
  the target provide; and no histogram has an own `le` label (`Tightness.TightIffSaturable`,
  with a failing catalog in `Tightness.NarrowNotTight`).
- `live_rejections` raises on a case that is no object where `live_rejection_diagnostics`
  returns tags, and the latter raises on an unhashable service where the former returns
  `False`; apart from that an accepting answer of one is an empty answer of the other
  (`LiveRejections.CheckBoth`).
- The bins of a chaos run start at time zero and its phases at `traffic_started`. They total
  the same number of requests exactly when no request is scheduled in between
  (`ChaosPhases.ViewsAgree`).
- `percentile` raises for a quantile above one and returns the minimum for one at or below
  zero (`Percentiles.PercentileEdges`).

## Model

| member | source | states |
|---|---|---|
| PrimeField.Fermat | benchmarks/check_signer_handoff.py:169-170 | for every prime q and a not divisible by it, a^(q-1) is 1 modulo q; this is why raising to Q - 2 inverts |
| PrimeField.SquareRootOfMinusOne | benchmarks/check_signer_handoff.py:170 | 2^((q-1)/4) is a square root of -1 for every prime q with q % 8 == 5, so I is one |
| EdwardsCurve.Denominator | benchmarks/check_signer_handoff.py:191-194 | neither 1 + D x1 x2 y1 y2 nor 1 - D x1 x2 y1 y2 vanishes modulo q, for every two points of the curve |
| EdwardsCurve.SumMeaning | benchmarks/check_signer_handoff.py:188-195 | the two coordinates are reduced and are the quotients of the addition formulas, with denominators that do not vanish |
| EdwardsCurve.Closure | benchmarks/check_signer_handoff.py:188-195 | the sum of two curve points is a reduced curve point |
| EdwardsGroup.Associative | benchmarks/check_signer_handoff.py:188-195 | addition is associative on the curve |
| EdwardsGroup.Commutative | benchmarks/check_signer_handoff.py:188-195 | addition is commutative, for all inputs and any modulus |
| EdwardsGroup.Identity | benchmarks/check_signer_handoff.py:188-199 | (0, 1) is neutral for every reduced pair, on the curve or not |
| EdwardsGroup.Inverses | benchmarks/check_tls_identity_handoff.py:148-155 | every curve point has an inverse on the curve |
| ScalarMultiplication.ScalarMultLoop | benchmarks/check_signer_handoff.py:198-206 | the loop over result, addend and scalar ends with the n-fold sum of a curve point, for every scalar |
| ScalarMultiplication.ScalarMultIsMultiple | benchmarks/check_signer_handoff.py:198-206 | double-and-add equals repeated addition and stays on the curve |
| ScalarMultiplication.ScalarMultHomomorphism | benchmarks/check_tls_identity_handoff.py:158-166 | multiples by a + b and a * b decompose into sums and nested multiples |
| ScalarMultiplication.ScalarMultDistributes | benchmarks/check_signer_handoff.py:188-206 | the multiple of a sum of two curve points is the sum of the multiples |
| ScalarMultiplication.IdentityFixed | benchmarks/check_signer_handoff.py:198-206 | every multiple of (0, 1) is (0, 1), with no hypothesis on the curve |
| ScalarMultiplication.MultipleInjective | benchmarks/check_signer_handoff.py:258 | scalars below the order of a point are told apart by the multiple |
| PointRecovery.XRecoverRange | benchmarks/check_signer_handoff.py:173-180 | the recovered root lies in [0, q) and is even, for every ordinate and every odd q |
| PointRecovery.XRecoverMeaning | benchmarks/check_signer_handoff.py:173-180 | for the ordinate of a curve point the recovered root is the even one of its two abscissas |
| PointRecovery.RecoverableIff | benchmarks/check_signer_handoff.py:173-180 | the recovered root solves the curve equation exactly when some abscissa does |
| PointCodec.CandidateIsCanonical | benchmarks/check_signer_handoff.py:212-226 | the candidate point is in range and re-encodes to the input bytes whenever the sign is admissible |
| PointCodec.DecodersAgree | benchmarks/check_tls_identity_handoff.py:169-191 | the decoder without the x >= Q test returns the same on all bytes |
| PointCodec.DecodeNeverIdentity | benchmarks/check_signer_handoff.py:227-232 | no bytes decode to (0, 1) |
| PointCodec.DecodeInjective | benchmarks/check_signer_handoff.py:209-233 | two byte strings that decode to the same point are equal |
| PointCodec.DecodeSound | benchmarks/check_signer_handoff.py:209-233 | a decoded point is a non-identity point of the order-l subgroup and the bytes are its encoding |
| PointCodec.DecodeComplete | benchmarks/check_signer_handoff.py:209-233 | every non-identity point of the subgroup decodes back from its encoding |
| PointCodec.DecodeMeaning | benchmarks/check_signer_handoff.py:209-233 | bytes decode to p exactly when p is such a point and they are its encoding (sections 5.1.2 and 5.1.3 of RFC 8032) |
| Signature.VerifiersAgree | benchmarks/check_tls_identity_handoff.py:194-210 | the two verifiers return the same verdict on every key, message and signature text |
| Signature.VerifyMeaning | benchmarks/check_signer_handoff.py:236-258 | a signature is accepted exactly when it spells a commitment and a scalar below l with S B = R + k A, for a key of the subgroup |
| Signature.UniqueSignature | benchmarks/check_signer_handoff.py:236-258 | with key, commitment bytes and message fixed at most one signature is accepted |
| SignatureReuse.ReuseIffSameChallenge | benchmarks/check_signer_handoff.py:236-258 | with l prime, a signature accepted for one message is accepted for another under the same key exactly when both have the same challenge |
| SignatureReuse.ReuseNeedsCollision | benchmarks/check_signer_handoff.py:282-327 | with l prime, a signature accepted for one policy or receipt is accepted for another exactly when the two agree in everything but the signature or their hash inputs differ and collide modulo l |
| Signature.HonestSignature | benchmarks/check_signer_handoff.py:236-258 | for A = a B and R = r B the verifier accepts the scalar (r + k a) mod l and no other 32-byte scalar (sections 5.1.6 and 5.1.7 of RFC 8032) |
| Constants.BaseIsValid | benchmarks/check_signer_handoff.py:183-185 | B as computed lies on the curve once its ordinate belongs to any curve point |
| Constants.Ed25519Generated | benchmarks/check_signer_handoff.py:167-185 | the constants as computed meet every hypothesis of the verifier results, given the four facts named above |
| Constants.Ed25519HonestSignature | benchmarks/check_signer_handoff.py:167-258 | the honest-signature theorem for the concrete Q, L, D, I and B |
| Utf8.RoundTrip | benchmarks/check_signer_handoff.py:272-275 | decoding the UTF-8 bytes of an encodable text gives the text back |
| Utf8.EncodeDefined | benchmarks/check_signer_handoff.py:273 | encoding fails exactly on lone surrogates |
| SigningBuffer.ByteArray.ExtendInt | benchmarks/check_signer_handoff.py:278-287 | appends exactly the big-endian bytes, or fails and leaves the buffer as it was when the value does not fit |
| SigningBuffer.ByteArray.AppendString | benchmarks/check_signer_handoff.py:272-275 | appends exactly the length-prefixed UTF-8 bytes of the text |
| SigningBuffer.ByteArray.AppendCredentials | benchmarks/check_signer_handoff.py:289-294 | appends exactly the counted list of credentials |
| SigningBuffer.SnapshotBytes | benchmarks/check_signer_handoff.py:282-311 | the appends into one buffer give the canonical encoding, and raise exactly when it is undefined |
| SigningBuffer.ReceiptBytes | benchmarks/check_signer_handoff.py:314-327 | likewise for receipts |
| CanonicalBytes.SnapshotDefined | benchmarks/check_tls_identity_handoff.py:213-249 | a snapshot encodes exactly when its integers, counts and text lengths fit their fields and its texts are encodable |
| CanonicalBytes.ReceiptDefined | benchmarks/check_tls_identity_handoff.py:213-265 | likewise for receipts |
| CanonicalBytes.SnapshotInverse | benchmarks/check_signer_handoff.py:282-311 | a reader recovers every field but the signature from the encoding and returns whatever follows it |
| CanonicalBytes.ReceiptInverse | benchmarks/check_signer_handoff.py:314-327 | likewise for receipts |
| CanonicalBytes.SnapshotPrefixFree | benchmarks/check_signer_handoff.py:282-311 | no snapshot encoding is a proper prefix of another |
| CanonicalBytes.ReceiptPrefixFree | benchmarks/check_signer_handoff.py:314-327 | no receipt encoding is a proper prefix of another |
| CanonicalBytes.SnapshotInjective | benchmarks/check_tls_identity_handoff.py:223-249 | two snapshots have the same bytes exactly when they agree in everything but the signature |
| CanonicalBytes.ReceiptInjective | benchmarks/check_tls_identity_handoff.py:252-265 | two receipts have the same bytes exactly when they agree in everything but the signature |
| CanonicalBytes.DomainsSeparate | benchmarks/check_signer_handoff.py:283-315 | neither a snapshot encoding nor a receipt encoding is a prefix of the other |
| Metrics.TheoreticalFamilySeries | benchmarks/check_observability.py:279-303 | the accumulating loop computes the closed form whose value `Cardinality.LabelSetsSize` counts, and raises in the same two cases |
| Cardinality.LabelSetsSize | benchmarks/check_observability.py:286-301 | the closed form is exactly the number of admissible label sets, with route and method as one relation |
| CatalogCheck.ValidateCatalog | benchmarks/check_observability.py:426-499 | the nested loops report exactly the issues the document deserves, and none exactly when metadata, sample names, labels and values all fit the catalog |
| CatalogCheck.CatalogOrderFree | benchmarks/check_observability.py:426-499 | that verdict does not depend on the order of the samples |
| HistogramFamilies.GroupBuckets | benchmarks/check_observability.py:515-518 | the dictionary built in the loop holds, per label set, exactly its bucket samples in order |
| HistogramFamilies.AuditFamily | benchmarks/check_observability.py:509-578 | reports exactly the issues of one family (no groups, label sets of buckets, sums and counts that differ, each group with broken algebra), observes exactly its label sets, and raises exactly when a bucket lacks a boundary |
| HistogramFamilies.AuditHistograms | benchmarks/check_observability.py:502-586 | all_valid holds exactly when every document passes and some histogram was observed; the audit raises exactly when some histogram of some document has a bucket without boundary |
| HistogramAudit.GroupMeaning | benchmarks/check_observability.py:537-566 | a group is valid exactly when it is, in some order, the fifteen standard buckets with non-decreasing values ending in its count, and a non-negative sum |
| HistogramAudit.GroupOrderFree | benchmarks/check_observability.py:537-566 | validity of a group does not depend on the order of its samples |
| HistogramResults.AcceptedCounts | benchmarks/check_observability.py:489-578 | every accepted group de-cumulates to non-negative bucket counts that sum to its _count |
| HistogramResults.VerdictOrderFree | benchmarks/check_observability.py:426-578 | both verdicts are the same for every permutation of a document with distinct series |
| Cardinality.SampleInCatalog | benchmarks/check_observability.py:426-578 | every sample of a document that passes both checks is one of the catalog's finitely many series |
| Cardinality.SeriesBound | benchmarks/check_observability.py:279-313 | for every catalog, a document with distinct series that passes both checks has at most the theoretical number of series |
| Saturation.CatalogSeriesExact | benchmarks/check_observability.py:306-313 | where no two families share a sample name and no histogram has an own le label, the theoretical total is exactly the number of series of the catalog |
| Saturation.BoundAttained | benchmarks/check_observability.py:279-313 | for every saturable catalog some document passes both checks with exactly the theoretical number of series |
| Tightness.TightIffSaturable | benchmarks/check_observability.py:279-586 | for every well-formed catalog with a theoretical total, some document passes both checks and attains the total if and only if the catalog is saturable |
| Tightness.NarrowNotTight | benchmarks/check_observability.py:279-303 | a catalog whose method domain is narrower than its route relation has total 2, and no document that passes both checks has two series |
| CounterScan.ScanCounters | benchmarks/check_observability.py:841-859 | the scan with its dictionary of previous values reports, in order, every observation smaller than the last one of its series; it reports none exactly when no series ever decreases |
| CounterScan.FollowedNames | benchmarks/check_observability.py:844-850 | the names the scan follows are all sample names of counters and histograms, and no other |
| CounterScan.ScanTarget | benchmarks/check_observability.py:843-859 | the scan of one target over its catalog: with distinct series per checkpoint it reports nothing exactly when no followed series is smaller at any later checkpoint |
| CounterScan.ScanMeaning | benchmarks/check_observability.py:841-859 | with distinct series per checkpoint this is: for every two checkpoints that hold a series the later value is not smaller, also when it is absent in between |
| Handoff.CheckHandoff | benchmarks/check_signer_handoff.py:1771-1878 | the loop over seen_controls, previous_control_state and valid accepts exactly the runs whose start and four steps all meet their conditions |
| Handoff.HandoffOrder | benchmarks/check_signer_handoff.py:1799-1826 | in an accepted run the first three services are the three controls, each once, the third and only the third is the baseline leader, and the fourth is the gateway |
| HandoffSafety.KeysGrow | benchmarks/check_signer_handoff.py:1827-1852 | between any two moments of an accepted run the key-b set grows by exactly the services of the control steps in between, none twice; it starts empty and gains one per control step |
| HandoffSafety.OneKeyPerStep | benchmarks/check_signer_handoff.py:606-657 | a control step changes credential, generation and activation count of its own service and of no other control, the gateway step of none, and a changed control never goes back |
| HandoffSafety.GatewayLast | benchmarks/check_signer_handoff.py:1867-1877 | while the gateway has the new key no control has the old one |
| HandoffSafety.RolesKept | benchmarks/check_signer_handoff.py:606-657 | at every moment the same control leads, in the same term, and the other two follow |
| HandoffSafety.ProcessesStay | benchmarks/check_signer_handoff.py:1781-1834 | any two process tables of an accepted run name the same processes with the same identities, as does the continuity table |
| Handoff.HandoffMonotone | benchmarks/check_signer_handoff.py:1853-1866 | commit, applied and log indexes of every control never decrease between any two points of an accepted run |
| HandoffRuns.EveryOrderAccepted | benchmarks/check_signer_handoff.py:1771-1878 | conversely every order of the three controls that ends with the leader is the order of some accepted run, for every term |
| LiveRejections.CheckLiveRejections | benchmarks/check_signer_handoff.py:1493-1538 | on any JSON value, answers true exactly on acceptable documents and raises exactly when a case of a well-formed list is no object |
| LiveRejections.Diagnose | benchmarks/check_signer_handoff.py:1541-1590 | on any JSON value, returns exactly the tags the document deserves and raises exactly when the common service is unhashable |
| LiveRejections.AcceptsIffUntagged | benchmarks/check_signer_handoff.py:1493-1590 | a document is acceptable exactly when it deserves no tag |
| LiveRejections.CheckBoth | benchmarks/check_signer_handoff.py:1493-1590 | the boolean validator answers true exactly when the diagnostic one returns no tag |
| LiveRejections.RejectionKeepsSigner | benchmarks/check_signer_handoff.py:467-489 | in an accepted document case k takes rejected_reloads from k to k + 1, keeps credential and generation before, during and after, and shows its error only during |
| LiveRejections.OneStory | benchmarks/check_signer_handoff.py:1493-1538 | any two cases of an accepted document name one service and one process, the later takes up the counter where the cases in between left it, the generation changes once, between the ninth and the tenth case, and the last case leaves eleven rejections |
| LiveRejectionRuns.EveryControlAccepted | benchmarks/check_signer_handoff.py:1493-1538 | for every control, process id and start token some document is accepted |
| Percentiles.PercentileMeaning | benchmarks/analyze_chaos.py:37-42 | for 0 < q <= 1 the result is the one member with at least n q values up to it and fewer than n q below it |
| Percentiles.PercentileEdges | benchmarks/analyze_chaos.py:37-42 | no result exactly for the empty list, an index error exactly for q above one, the minimum for q at or below zero |
| Percentiles.PercentileOrderFree | benchmarks/analyze_chaos.py:40 | the order of the values does not matter |
| Percentiles.PercentileMonotone | benchmarks/analyze_chaos.py:37-42 | on a non-empty list a larger quantile never gives a smaller value, for all quantiles up to one |
| ChaosSummary.LatencyOrdered | benchmarks/analyze_chaos.py:83-88 | p50 <= p95 <= p99 <= max, and all four are missing together exactly without requests |
| ChaosSummary.SummaryAdds | benchmarks/analyze_chaos.py:49-82 | every count of a summary, also per status and per worker, is the sum of what each request adds to it |
| ChaosTimeline.TimelineBins | benchmarks/analyze_chaos.py:163-186 | the loop produces one bin per half second, each reporting the requests of its own window |
| ChaosTimeline.OneBin | benchmarks/analyze_chaos.py:163-173 | every request scheduled in [0, duration) is in exactly one bin |
| ChaosTimeline.BinsConserve | benchmarks/analyze_chaos.py:163-186 | requests, successes, errors and attempts over all bins equal those of the requests scheduled in [0, duration), for every duration |
| ChaosPhases.SummarizePhases | benchmarks/analyze_chaos.py:241-254 | the loop tabulates each phase under its name and raises exactly when an event it needs is missing |
| ChaosPhases.SummarizeAll | benchmarks/analyze_chaos.py:236-254 | with the expected event order the loop over PHASES does not raise |
| ChaosPhases.OnePhase | benchmarks/analyze_chaos.py:16-24 | every request scheduled while traffic ran is in exactly one phase |
| ChaosPhases.PhasesConserve | benchmarks/analyze_chaos.py:241-254 | every figure summed over the phases equals that of the requests scheduled while traffic ran, given the event order check_chaos.py demands |
| ChaosPhases.ViewsAgree | benchmarks/analyze_chaos.py:163-254 | bins and phases total the same number of requests exactly when none is scheduled between time zero and the start of the traffic |
| ChaosPhases.FiguresAgree | benchmarks/check_chaos.py:53-62 | under that condition and the event order checked here successes, errors and attempts agree too |
| CircuitSegments.CircuitSegments | benchmarks/analyze_chaos.py:189-225 | builds the segments of the samples that are no errors and raises exactly when one of those lacks the worker; with increasing sample times every such sample lies in exactly one segment, which carries the state the sample reports |
| CircuitSegments.SegmentsShape | benchmarks/analyze_chaos.py:201-225 | the segments run from 0 to the duration without a gap, neighbours differ, and there is one more than there are state changes; none without points |
| CircuitSegments.CoveredOnce | benchmarks/analyze_chaos.py:201-225 | for samples in order every time in [0, duration] is in exactly one segment |
| CircuitSegments.SegmentsMean | benchmarks/analyze_chaos.py:201-225 | the segment that holds a time carries the state last sampled at or before it |
| CircuitSegments.PointOfSample | benchmarks/analyze_chaos.py:192-200 | every sample that is no error gives a point with its own time and its worker's state |
| CircuitSegments.SampleShown | benchmarks/analyze_chaos.py:189-225 | for strictly increasing times in [0, duration] each sample that is no error lies in exactly one segment, and that one carries the sample's own state |

The encoders in `benchmarks/check_tls_identity_handoff.py:213-265` perform the same appends in
the same order as those in `benchmarks/check_signer_handoff.py:272-327`, so one model stands
for both and their bytes agree on every input.

## Left out

- The Rust and C++ services (Raft, gateway, queue, cache, trust renewer): the checkers only see their recorded output.
- HTTP probes, processes, threads, clocks, files, manifests and SVG rendering: input and output only.
- The long comparisons of one evidence bundle with literal values: each is settled by reading one expression.
- SHA-512, base64, regular expressions and the parsing of decimal boundaries: parameters of the model.
- Primality of 2^255 - 19, D not being a square, and the order of B: hypotheses of the lemmas, not evaluated.
- parse_openmetrics: a document starts as parsed samples with label maps; where the parser's rejection of duplicate series matters, distinct series is a hypothesis.
- Floating-point rounding, `round(..., 3)` and NaN or infinite sample values: times, latencies and values are reals; only histogram boundaries have infinities and a NaN.
- CatalogCheck.ValidateCatalog: states which issues are reported, not the wording, order or number of the messages.
- HistogramFamilies.AuditHistograms: states the verdict over all documents; the issues and the observed label sets are stated per family, the texts not at all.
- CounterScan.ScanCounters: reports the series that dropped; the text of the message is not modelled.
- Handoff.CheckHandoff: takes documents that already have the expected shape and types; the key-set tests and the exceptions on malformed steps are not modelled.
- LiveRejections.Diagnose: returns the tags as a set of constructors; the sorted list of their texts is not modelled.
- ChaosSummary.SummaryAdds: the two rounded ratios of a summary are not modelled.
- The recovery times of analyze_chaos.py (first open, first recovered, failover): searches that would only add easy members.
- The trust-policy, receipt, completion and metric documents of the handoff checkers beyond the signing bytes: finite lists of comparisons.
