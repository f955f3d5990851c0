# StrataTrace, modelled and proved

StrataTrace traces an IPv4 path with probes that keep one flow fixed, repeats them where the evidence is suspicious
(differential boundary probing, DBP), and adds probes on varied flow tokens until a sample bound is met
(confidence-bounded adaptive probing, CAP). Its report classifies stretches of the path and certifies what was sampled
enough. This project models that machinery and proves what a report can be relied on for. It stands in four parts.

* **Wire format.** `Bytes`, `Checksum`, `ProbePackets`, `ResponseParsing` and `Extensions` build and read the packets
  octet by octet: RFC 1071 sums, the compensation word that keeps every ICMP probe's checksum at 0x5A5A, the UDP, TCP
  and ICMP probes, ICMP quotations, and the extension objects of sections 7 and 8 of RFC 4884, section 3 of RFC 4950
  and section 4 of RFC 5837.
* **Correlation.** `Correlation`, `Quotations` and `RawBackend` number the probes, match replies to them and read
  header rewrites out of what they quote. The network is any sequence of received packets, in any order.
* **The controller.** `Controller.TraceController` is the stateful machine, field by field: the observation log, the
  warnings, the sample-id counter, the cache of variant flows. `Rounds`, `Sweeps`, `Tokens`, `Ledgers`, `Sampling`,
  `Campaigns`, `Coverage`, `Drawing` and `TokenReuse` say what its steps add to the log, what the budget refuses and
  which flow tokens they use; `Evidence` and `Regions` read the log back; `Clusters` shares sampling windows;
  `Suspicion`, `Kinds` and `Measures` say what detection, classification and the numbers of a report mean in terms of
  the log alone; `Segments`, `Verdicts` and `Summary` classify, certify and merge. The network is an arbitrary
  function from the k-th probe of the run and its spec to a legal reply (a timeout exactly when there is no responder,
  terminal only when answered), so whatever is proved of `Run` holds on every network. `CutRun` follows every run with
  one set of settings on one network, and runs the controller on them.
* **Sample arithmetic.** `Stats` works over exact reals: the least sample size for a bound, and the inequality between
  drawing without replacement and independent draws.

The results meet in `Guarantees`. `Runs.RunOf` is what every uninterrupted run establishes
(`Controller.TraceController.Run` ensures it, and ends on every input). It fixes a run step by step: each baseline
round, the canaries and each sampling window add what the budget holds, a refusal is recorded exactly when the next
bundle does not fit, and the warnings are those and no others. The lemmas of `Guarantees` and `Reports` follow from it
for every edge, segment and TTL of the report. The strongest one joins the controller and the arithmetic: in a run
whose canaries are all in the log, and for every segment not across the cut of one that is not, the complete samples
behind a certified coverage segment are on pairwise distinct flow tokens drawn from the free pool, and of all equally
likely draws of that size at most the requested fraction misses every token of a branch that takes a
`min_detectable_probability` share of the pool. `RawBackend.RawIpv4Backend.SendBatch` gives the controller's batches
what the controller asks of its network: one legal observation per spec, in send order.

Three promises turn out to need a condition. Each has its exact condition, for all inputs, and an input that fails it.

* The checksum-neutral ICMP probe can be built for an odd payload size, which the configuration accepts, exactly when
  its compensation word is a multiple of 257 (`ProbePackets.EchoIsChecksumNeutral`). For one probe with 17 octets of
  payload the word is 63225, and the builder refuses it (`ProbePackets.OddPayloadRefused`).
* A router's honest error comes back to its probe whatever follows the quotation, exactly unless the quotation ends
  before the session tag does and the octets after it spell another tag (`Quotations.HonestErrorRoundTrip`). Zero
  padding after 32 quoted octets does (`Quotations.LostReply`).
* The certified sample count assumes draws without replacement. When the budget cuts a canary short at some TTL, a
  window that reaches past that TTL does not see the canary and draws its variant again, while a region of the same
  cluster that ends below the cut counts both samples. `Guarantees.TokensRepeatExactly` states exactly when that
  happens, for every region of every run; `CutRun.EveryRunRepeats` gives settings and a network on which every run,
  whichever ports it draws, certifies a segment on two samples of one port, and `CutRun.Trace` has the controller do
  it.

Methods follow the loops of the source and are proved against the specification functions; a loop body or a case of a
loop is sometimes a method of its own.

## Model

| member | source | states |
|---|---|---|
| Checksum.OnesComplementSum | src/stratatrace/packet.py:67-73 | folding the carries back in yields the sum's representative modulo 65535, zero only for an all-zero message, with an odd last octet taken as a high half |
| Checksum.FilledChecksumVerifies | src/stratatrace/packet.py:76-77 | a message computed with a zero checksum field and then filled in verifies to zero, wherever the aligned field lies |
| Checksum.CompensationHitsTarget | src/stratatrace/packet.py:241-245 | the compensation word makes the checksum the target when it is word aligned, and when misaligned exactly if it is a multiple of 257 |
| Checksum.CorruptionIsNoticed | src/stratatrace/packet.py:76-77 | a message that verifies does not once any single octet of it is changed |
| ProbePackets.EchoIsChecksumNeutral | src/stratatrace/packet.py:248-281 | which payload sizes give an Echo probe at all (every even one; an odd one exactly under the 257 condition); its checksum is 0x5A5A, it verifies, and its first eight octets depend on the identifier alone |
| ProbePackets.OddPayloadRefused | src/stratatrace/packet.py:248-281 | a probe that the configuration accepts and the builder refuses: identifier, TTL, probe id and session 1 with 17 octets of payload |
| ProbePackets.SynVerifies | src/stratatrace/packet.py:155-228 | the TCP SYN verifies under its pseudo-header in both option profiles |
| ProbePackets.SynLayout | src/stratatrace/packet.py:149-228 | ports, the sequence number that carries session and probe id, and the data offset lie where quotations show them; the rest is a bare SYN octet by octet: flags 0x02, no acknowledgement, no urgent data, the window and the options of the profile |
| Correlation.ProbesHold | src/stratatrace/backend.py:232-264 | every probe of every protocol is an unfragmented datagram with a valid header checksum and, octet by octet, a UDP datagram of its stated length without checksum, a bare SYN that verifies, or an Echo request with checksum 0x5A5A; padding is zero |
| Correlation.BuildsExactly | src/stratatrace/packet.py:84-281 | which probes can be built at all: ports from 1, TTLs from 1 to 255, a packet that has room for the payload, and for Echo the condition above |
| Extensions.ParseIcmpExtensions | src/stratatrace/packet.py:508-562 | the loop over objects computes the recursive reading of the extension area, for every message of arbitrary octets |
| Extensions.ConsumesMaximalPrefix | src/stratatrace/packet.py:533-556 | on arbitrary octets the reading stays in bounds and consumes a well-formed prefix that no longer one extends |
| Extensions.ParseConcatenation | src/stratatrace/packet.py:533-562 | reading two well-formed object sequences one after the other gives the two results appended, per kind and in order |
| Extensions.InterfaceRoundTrip | src/stratatrace/packet.py:565-602 | every encodable interface-information object (any subset of index, IPv4 or IPv6 address, name, MTU) reads back as itself |
| Extensions.ExtensionRoundTrip | src/stratatrace/packet.py:508-562 | encoding any list of label stacks, interface and unknown objects and parsing the ICMP message returns them in order, trusted |
| Extensions.OnlyTrustedIsRead | src/stratatrace/packet.py:508-532 | evidence is read if and only if a structure of version 2 lies behind the announced or legacy quotation, and nothing of one whose checksum is sent and fails |
| Extensions.CorruptionIsUntrusted | src/stratatrace/packet.py:524-532 | an encoded extension with any one octet of its objects changed gives no evidence, exactly unless its checksum field is zero |
| Extensions.UncheckedExtension | src/stratatrace/packet.py:524-526 | such a structure exists: an object for which the computed checksum is zero, which reads as not checked |
| Extensions.TruncatedInterface | src/stratatrace/packet.py:565-602 | an interface object cut short anywhere gives nothing, exactly unless the cut is behind the first octet of a name that comes last, which keeps what is there |
| Extensions.UnknownFormsIgnored | src/stratatrace/packet.py:565-602 | an address family other than IPv4 and IPv6, or a name length outside 1 to 64, voids the object |
| Quotations.QuotationIsAttributed | src/stratatrace/backend.py:368-444 | an ICMP error quoting at least 28 octets of any built probe, with any octets rewritten but version, lengths and protocol, is attributed to the probe exactly when it carries session and id, or no session and the intact IP id, destination and flow field; type and code decide kind and terminal; its mutations are exactly the octet differences of addresses, DSCP, ECN, ports, TCP sequence and ICMP identifier |
| Quotations.HonestErrorRoundTrip | src/stratatrace/packet.py:339-449 | an ICMP error quoting at least 28 octets of any probe, changed only in TTL and header checksum and followed by anything, names the probe, matches its flow and shows no mutation, exactly unless it cuts the tag and what follows spells another one; it is terminal exactly for type 3, time exceeded exactly for type 11, the destination exactly for a port unreachable to UDP and unreachable for the rest of type 3; TCP and quotations of 40 octets verify the session |
| Quotations.PaddedTagIsLost | src/stratatrace/packet.py:330-338 | the exception: a UDP or ICMP quotation of 32 to 37 octets, padded with zeros, of a probe whose id does not end in a zero octet is not attributed to it |
| Quotations.LostReply | src/stratatrace/packet.py:414-417 | one such error, octet by octet, for the first UDP probe of a session |
| Quotations.LabelledErrorRoundTrip | src/stratatrace/packet.py:339-562 | a truncated honest quotation, padded to the announced length and followed by extension objects, gives in one message the probe, its verified session, no mutation and exactly those objects in order |
| Correlation.HonestTcpRoundTrip | src/stratatrace/packet.py:452-501 | a SYN-ACK or RST-ACK with reversed ports acknowledging the sequence plus one modulo 2^32 names the probe, is terminal, matches and shows no mutation |
| Correlation.TcpAnswerExactly | src/stratatrace/packet.py:452-501 | a TCP segment is taken as the answer to a probe if and only if the probe is a SYN, the ports are its reversed ones, ACK and one of SYN or RST are set, the data offset fits and the acknowledgement is its sequence plus one |
| Correlation.HonestEchoRoundTrip | src/stratatrace/packet.py:367-389 | an Echo reply returning the probe's body names the probe, matches its flow and is the terminal answer of its sender |
| Correlation.EchoAnswerExactly | src/stratatrace/packet.py:367-389 | an Echo reply is taken as the answer to a probe if and only if the probe is an Echo request and the reply carries the magic, the session and its id |
| Correlation.OthersRefused | src/stratatrace/backend.py:369-398 | other ICMP types, and errors that do not quote a packet of the probe's transport protocol, are never attributed to it |
| ResponseParsing.OptionsAndPaddingSkipped | src/stratatrace/packet.py:305-327 | a packet with header options and link-layer padding reads as its header fields and exactly the payload it announces |
| ResponseParsing.HeadersAreChecked | src/stratatrace/packet.py:305-327 | a packet is refused exactly when it is too short for the header it announces, not of version 4, or announces less than its header; a payload cut short is read as far as it goes |
| ResponseParsing.BareOrWrapped | src/stratatrace/packet.py:350-363 | an ICMP message comes with its IPv4 header, whose source is the sender, or bare, from the address the socket names; a packet of another protocol is refused |
| RawBackend.IdsRepeatExactly | src/stratatrace/backend.py:168-171 | two allocations give the same id exactly when they are a multiple of 65535 apart |
| RawBackend.RawIpv4Backend.AllocateProbeId | src/stratatrace/backend.py:168-171 | the id handed out is the current one and the next follows the wrap-around order |
| RawBackend.RawIpv4Backend.SendBatch | src/stratatrace/backend.py:265-367 | up to 65535 specs get one observation each, in send order, equal to that probe's outcome over everything that arrived; the batch fails exactly when a probe cannot be built; larger batches lose observations |
| RawBackend.OutcomeIsJustified | src/stratatrace/backend.py:295-367 | an observation is a timeout exactly when nothing accepted arrived, and is otherwise the reading of the first arrival that names the probe and matches its flow |
| RawBackend.OutcomeOfConcatenation | src/stratatrace/backend.py:295-367 | the first accepted reply wins however arrivals are split into receive rounds |
| RawBackend.ForeignOrLateArrivalIgnored | src/stratatrace/backend.py:316-321 | an arrival for another id, or a second one for an answered probe, changes nothing |
| RawBackend.QuotedErrorIsReported | src/stratatrace/backend.py:265-444 | an ICMP error that quotes a probe, however rewritten, becomes its observation before anything else accepted exactly when it is recognisable, field by field and with exactly the rewrites its octets show; otherwise it changes nothing |
| RawBackend.HonestErrorIsReported | src/stratatrace/backend.py:265-367 | a router's honest error that arrives before anything else accepted becomes the observation, field by field: that router, its TTLs, type and code, the kind and end of path they stand for, what it was matched by, no mutation, the extension it carries, whatever arrives around it; under the one exception of the round trip it changes nothing |
| RawBackend.TcpAnswerIsReported | src/stratatrace/backend.py:306-350 | a TCP segment before anything else accepted becomes the observation, field by field, if and only if it is an honest answer, and otherwise changes nothing |
| RawBackend.EchoAnswerIsReported | src/stratatrace/backend.py:306-350 | so does an Echo reply, if and only if it carries the magic, the session and the probe id |
| Stats.RequiredSamplesExact | src/stratatrace/stats.py:13-33 | a count meets the requested bound exactly when it reaches the required samples, which exist and are at most one more than 1/(p delta) |
| Stats.Bernoulli | src/stratatrace/stats.py:29-33 | (1-p)^n (1+np) <= 1, which ends the search for the least count |
| Stats.DrawsAreDraws | src/stratatrace/controller.py:1037-1040 | the counted draws are exactly the sequences of n distinct tokens of the pool |
| Stats.MissedDrawsBound | src/stratatrace/stats.py:13-33 | with a fraction p of the pool marked, the draws without replacement that miss every mark are at most (1-p)^n of all, hence at most delta from the required count on |
| Evidence.BundleCompletes | src/stratatrace/controller.py:688-694 | a whole bundle adds one complete sample to exactly the windows it covers |
| Evidence.CompleteSamplesGrow | src/stratatrace/controller.py:688-694 | complete samples survive later probes and narrower windows |
| Evidence.AnalysisLimitNeverGrows | src/stratatrace/controller.py:314-322 | after an answer, probing within the limit can only lower it, and not at all without a terminal reply |
| Evidence.LimitIsTheEnd | src/stratatrace/controller.py:314-322 | the limit is the lowest TTL at which the main flow met a terminal reply, without one the highest TTL that answered any flow, and without that the configured maximum |
| Sampling.CompleteSampleCount | src/stratatrace/controller.py:688-694 | the per-sample dictionaries count exactly the samples that probed every TTL of the window on the right kind of flow |
| Sampling.SeriesCounts | src/stratatrace/controller.py:594-643 | a run of bundles adds all its samples or none to a window's count |
| Sampling.SeriesAccounted | src/stratatrace/controller.py:594-643 | fresh samples on the right flows keep the accounts: no sample probes a TTL twice, each has one flow and one phase |
| Sampling.DrawingKeepsTokensFresh | src/stratatrace/controller.py:615-643 | drawing the next variants on a window repeats no adaptively drawn token at a TTL exactly when none of them was drawn before at a TTL of it |
| Controller.TraceController.VariantFlow | src/stratatrace/controller.py:337-362 | a cached variant keeps its flow; a new one gets a token of the free pool never used before |
| Controller.TraceController.Send | src/stratatrace/controller.py:369-381 | a bundle is sent whole exactly when the budget holds it; otherwise nothing changes but one warning; the ledger of the run is kept, and no batch exceeds 32 samples of 255 TTLs |
| Controller.TraceController.SweepRound | src/stratatrace/controller.py:402-425 | a round adds the main flow's probes chunk by chunk up to its limit or the first chunk with a terminal reply, nothing terminal lies below its last chunk, and it stops short with a warning exactly where the next chunk exceeds the budget |
| Controller.TraceController.Baseline | src/stratatrace/controller.py:383-440 | the rounds in closed form: one after another up to the sweep limit of each, ended by a chunk that does not fit the budget, by a silent first round, or by the number asked for, with exactly the warning of that end; one sample reaches every TTL up to the reach; the result is the lowest terminal TTL; without a warning each later round repeated what was visible plus the guard hops |
| Sweeps.NewRoundRepeats | src/stratatrace/controller.py:387-401 | a round that reaches its limit or a terminal reply probes again every visible TTL and the guard above it, up to the destination |
| Controller.TraceController.FlowCanaries | src/stratatrace/controller.py:442-465 | the plan grows by exactly whole sweeps of variants 1, 2, ..., and by whole chunks of one more exactly when the chunk after them exceeds the remaining budget |
| Regions.CollectSamples | src/stratatrace/controller.py:472-478 | the two per-TTL tables hold the baseline and canary samples of each TTL within the limit, in order |
| Regions.GroupRuns | src/stratatrace/controller.py:552-557 | the groups are exactly the maximal runs of consecutive suspicious TTLs, none missed, with gaps between them |
| Regions.ChangePointsEncodeProfiles | src/stratatrace/controller.py:520-530 | at every answered TTL the quoted-header profile is that of the latest change point, and consecutive change points differ |
| Regions.WindowGeometry | src/stratatrace/controller.py:558-588 | windows lie in range, are probed at no more than seven ascending TTLs, and always at their own ends and at both ends of the run they widen by one |
| Regions.FindRegions | src/stratatrace/controller.py:471-592 | the regions are the windows of exactly the maximal runs of marked TTLs, family by family, once each and sorted |
| Suspicion.MarkedExactly | src/stratatrace/controller.py:479-530 | a TTL is marked for a family if and only if the log shows it: multipath when a canary was answered from an address no baseline probe showed, flow visibility when only one kind of sweep was seen, intermittent when answers come and go, silent when none came, temporal when the baseline met two addresses, mutation when its rewrites are not those at the nearest answered TTL below |
| Suspicion.FoundAreStretches | src/stratatrace/controller.py:536-592 | the detected regions are exactly the longest stretches of such TTLs with their neighbours, probed at all TTLs of up to seven and else at the two at either end and the middle one |
| Clusters.ClusterRegions | src/stratatrace/controller.py:653-665 | the clusters split the sorted variant regions, each of overlapping members, and occupy disjoint TTL intervals in increasing order |
| Clusters.AggregateSpans | src/stratatrace/controller.py:666-678 | the shared window spans its members and is probed exactly where one of them is |
| Controller.TraceController.SendVariants | src/stratatrace/controller.py:628-643 | a batch of the next variants, sized as the loop sizes it, is always sent: the refusal inside the loop is unreachable |
| Controller.TraceController.DrawVariants | src/stratatrace/controller.py:614-643 | the batch loop ends having sent exactly as many of the wanted variants as the budget affords, and warns exactly when some are left out |
| Controller.TraceController.ProbeRegion | src/stratatrace/controller.py:594-643 | the log, the ids and the warning after sampling a window, in closed form: missing repeats that fit, then missing variants that fit |
| Coverage.SampledSatisfies | src/stratatrace/controller.py:594-643 | unless refused, a sampled window has the repeats it wants and, where variants count, the CAP sample, and gets no sample more than was missing |
| Coverage.SampledAreWhole | src/stratatrace/controller.py:594-643 | every adaptive sample probes the whole window it was sent for: a cluster's, or that of a single fixed-only region |
| Drawing.CanariesAlone | src/stratatrace/controller.py:442-465 | the canaries leave every window with as many complete samples as whole canaries, and one more exactly when it lies below the cut of the one cut short |
| Drawing.SampledBeyond | src/stratatrace/controller.py:594-678 | sampling the next disjoint window draws the variants from the first one it does not count on, the first of them on the whole window; no drawn token repeats at a TTL, and nothing changes past its end |
| TokenReuse.RepeatsExactlyAcrossCut | src/stratatrace/controller.py:615-643 | over any log of whole canaries, one cut short and draws in order, two complete samples of a window are on one token exactly when the window lies below the cut, the window it was sampled with reaches past it and drew a variant |
| CutRun.DrawnOnceMore | src/stratatrace/controller.py:594-643 | in the failing run, the step that repeats the token: the shared window 6 to 10 has its repeats, wants two variants, affords one and draws variant 1 again |
| Campaigns.RefusalLeavesNoRoom | src/stratatrace/controller.py:594-686 | whichever window was refused, at the end of the run one more bundle over it would exceed the budget |
| Controller.TraceController.ProbeRegions | src/stratatrace/controller.py:645-686 | the shared windows and then the regions that want no variants are sampled in turn, each from where the one before stopped, with one warning for each refused; without a refusal every region gets what it wants; no two draws use a variant twice at a TTL; each cluster draws from the first variant its window does not count as complete; only whole samples within the limit are added |
| Segments.PrimaryIffAnswered | src/stratatrace/controller.py:696-738 | a hop names a primary responder exactly when the main flow was answered there |
| Measures.HopIsCounted | src/stratatrace/controller.py:696-738 | a hop's numbers are counts over the log at its TTL on the main flow: sent, answered, loss, each responder with its answers, and as primary one that no other exceeds |
| Segments.NearestIsNearest | src/stratatrace/controller.py:1107-1121 | ingress and egress are the primaries of the nearest visible hops at or outside the ends, absent exactly when none is visible |
| Sequences.MostCommonIsModal | src/stratatrace/controller.py:703-704 | the first of the ranked responders occurs most often, and there is one exactly when there are responders |
| Segments.SignaturesCountCompleteSamples | src/stratatrace/controller.py:1084-1095 | a region's signatures number exactly the complete samples that adaptive sampling counts |
| Segments.CertifiedByCounts | src/stratatrace/controller.py:1023-1052 | a region is certified exactly when it has the repeats and, for coverage, the required variants; the numeric bound then holds by itself |
| Segments.StableMeansOneResponder | src/stratatrace/controller.py:900-914 | stability is 1 exactly when the fixed flow was answered and no probed TTL showed it two responders |
| Segments.BranchesAreExact | src/stratatrace/controller.py:943-951 | the branches are exactly the probed TTLs at which flow variants met several responders |
| Segments.OpaqueIsBounded | src/stratatrace/controller.py:973-1002 | an OPAQUE verdict has both ends answered on the main flow and a probed TTL strictly inside never answered on any flow |
| Segments.UnstableIsSound | src/stratatrace/controller.py:967-996 | an UNSTABLE verdict has two main-flow responders at a probed TTL |
| Segments.UnstableIsComplete | src/stratatrace/controller.py:967-996 | a temporal or global region probed where the main flow had two responders is UNSTABLE |
| Verdicts.OpaqueExactly | src/stratatrace/controller.py:974-982 | a silent window is OPAQUE if and only if both its ends, on the hop list, answered the main flow and some TTL probed in it never answered on any flow |
| Verdicts.DirectExactly | src/stratatrace/controller.py:967-1019 | a region is DIRECT if and only if each of its probed TTLs answered every probe from one address, the same on every flow, whole samples of both kinds cover it, and no header rewrite it minds was quoted |
| Kinds.KindExactly | src/stratatrace/controller.py:966-1021 | the kind of a region from the log alone: MULTIPATH of a multipath region if and only if two variant responders, MUTABLE if and only if a header-mutation region with a quoted rewrite, INTERMITTENT of a visibility region that is not OPAQUE if and only if a TTL was both answered and silent, or never answered, or complete variant samples differ; else the first of several main responders, several variant responders, bounded silence, unsteadiness, uniformity; UNKNOWN exactly where none of it was seen |
| Measures.EvidenceExactly | src/stratatrace/controller.py:881-964 | a region's stability is the largest share of main-flow answers that one responder for each TTL accounts for, its response rate the answered share, its outcomes and branches count samples and answers of the log, its certificate counts the samples that cover it |
| Segments.CoalesceSegments | src/stratatrace/controller.py:789-830 | the output has the input's keys, once each, in first-occurrence order; each output is the first input with its key, with all their reasons once each in order and any mechanism they name |
| Segments.CoalescingIsIdempotent | src/stratatrace/controller.py:789-830 | coalescing again returns the identical list |
| Segments.WindowsMergeExactly | src/stratatrace/controller.py:801-817 | for detected windows two claims merge exactly when type, bounds and kind of coverage agree, and then they agree in everything but the reasons, stability and response rate included |
| Summary.SummarizeSegments | src/stratatrace/controller.py:740-786 | the list is the coalesced claims, one per region with the kind and evidence stated above, and one rapid-sweep DIRECT for each clear edge, sorted by bounds |
| Summary.EdgesAreClaimed | src/stratatrace/controller.py:746-786 | an edge has exactly one claim of the two kinds if and only if it is inside a region or both its ends are visible |
| Controller.TraceController.Measure | src/stratatrace/controller.py:122-145 | the phases of a run, each in closed form from where the one before stopped: the baseline rounds, the canaries, what was detected and clustered, the windows sampled and drawn; every budget warning is that of one refusal, and no refusal is silent |
| Controller.TraceController.Report | src/stratatrace/controller.py:169-241 | hops up to the final limit, segments over the probed regions, the tail when there is one, the counters, and exactly the warnings of the measurement and its own remarks |
| Controller.TraceController.Run | src/stratatrace/controller.py:113-306 | every uninterrupted run from a new controller, on every network, satisfies the run specification under which all guarantees are proved |
| Guarantees.RunIsAccounted | src/stratatrace/controller.py:364-381 | in every run the log stays within the budget, the sweep counter counts baseline and canary probes, and any two probes of one sample share flow and phase and differ in TTL |
| Guarantees.AdaptiveSamplesAreWhole | src/stratatrace/controller.py:594-643 | every adaptive sample in the log probed exactly the TTLs of one cluster of regions, or of one region that wants no variants |
| Guarantees.PathIsCovered | src/stratatrace/controller.py:740-786 | when the baseline was answered, every edge of the final hop list is inside a region's claim or has exactly one rapid-sweep DIRECT, never both, never neither |
| Guarantees.DirectSegmentsAreObserved | src/stratatrace/controller.py:749-785 | a rapid-sweep DIRECT joins adjacent hops that both answered the main flow, names responders no other address exceeded, counts as many samples as the smaller number of main-flow probes in the log at its two TTLs, is certified exactly from the required count on, and gives its one reason |
| Guarantees.NothingIsClaimedInTheDark | src/stratatrace/controller.py:422-439 | when the baseline was not answered, the report has no segment |
| Reports.RegionsAreStretches | src/stratatrace/controller.py:471-592 | in every run without global CAP the regions are exactly the surroundings of the stretches its log shows, family by family, once each and in sorted order |
| Reports.SuspicionIsReported | src/stratatrace/controller.py:536-592 | whatever a TTL within the limit shows has a region of that family around it and a segment that claims it |
| Reports.NoRegionNothingShown | src/stratatrace/controller.py:471-533 | a run without global CAP has no region exactly when no TTL within the limit shows anything |
| Reports.SweepsStopAtTheEnd | src/stratatrace/controller.py:402-425 | no baseline sample of a run is probed beyond the chunk in which it met a terminal reply |
| Reports.LaterSweepsStayInSight | src/stratatrace/controller.py:385-401 | every baseline sample after the first is probed no further than the lowest terminal reply earlier samples met, and otherwise no further than the guard hops beyond what one of them saw |
| Reports.KindsAreExact | src/stratatrace/controller.py:966-1021 | the kind of every region's segment in a report is that of the log of its run, as stated for a region |
| Reports.EvidenceIsCounted | src/stratatrace/controller.py:881-1082 | every region's segment in a report has ends, rates, outcomes, branches and certificate counted over the log of its run |
| Reports.GlobalIsCertified | src/stratatrace/controller.py:127-137 | with global CAP one coverage segment spans the path up to the limit and is certified for the requested bound unless a warning says the budget refused something |
| Reports.ReasonsAreGiven | src/stratatrace/controller.py:966-1081 | a region's segment gives the reason of its kind, those of every region it speaks for, and the label stack exactly when one was seen there |
| Reports.HopsAreCounted | src/stratatrace/controller.py:696-738 | every hop of a report is counted over the log of its run |
| Reports.TailIsCounted | src/stratatrace/controller.py:832-879 | a silent tail starts at the last hop, names the nearest visible one as ingress and counts the samples of the main flow that swept all of it, gives its one reason and certifies nothing |
| Reports.TailIsReported | src/stratatrace/controller.py:832-879 | a silent tail is reported exactly when the baseline was answered, the main flow met no terminal reply, and something was probed beyond the last TTL that answered |
| Reports.SegmentsAreInOrder | src/stratatrace/controller.py:786-788 | segments are listed by where they begin, then by where they end, the silent tail included; with a silent tail, equal bounds are listed by name |
| Reports.LimitsAreEnds | src/stratatrace/controller.py:314-322 | the hop list ends where the whole log says the path does, and detection where the baseline says |
| Reports.ProbesKeepTheirFlow | src/stratatrace/controller.py:324-362 | every probe goes to the configured protocol and port on a flow that differs from any other flow of the run in its token alone, and two flows share a token exactly when they are one variant; sweeps and repeats are the main flow |
| Reports.RemarksAreTrue | src/stratatrace/controller.py:151-200 | the terminal TTL, whether the destination was reached, and the remarks on no terminal reply, no first response and no ambiguous boundary are what the log shows; a run without any answer says so or blames its budget |
| Guarantees.WarningMeansFull | src/stratatrace/controller.py:369-381 | a run that warns of its budget has filled it: one more probe at each of `max_hops` TTLs would exceed it |
| Guarantees.UncertifiedIsExplained | src/stratatrace/controller.py:1023-1052 | a region segment is uncertified only if the budget refused something: a warning says so, and the log leaves no room for a probe at each of `max_hops` TTLs |
| Guarantees.DirectSegmentsAreUniform | src/stratatrace/controller.py:967-1019 | a region's segment in a report is DIRECT if and only if one address answered every probe of the run at each TTL probed for it, whole samples of both kinds cover it, and no rewrite it minds was quoted |
| Guarantees.GlobalDirectIsOnePath | src/stratatrace/controller.py:127-137 | with global CAP a DIRECT region segment spans the path up to the limit, and at every TTL of it one address answered every probe of the run |
| Guarantees.OpaqueSegmentsAreBounded | src/stratatrace/controller.py:973-1002 | every OPAQUE segment of a report is bounded by answered ends around a TTL probed in vain |
| Guarantees.OpaqueSegmentsAreComplete | src/stratatrace/controller.py:479-592 | a TTL within the limit that answered no sweep lies in a silent window with a segment of its own, which is OPAQUE if and only if its ends, on the hop list, answered the main flow and some TTL probed in it never answered |
| Guarantees.UnstableSegmentsAreSound | src/stratatrace/controller.py:967-996 | every UNSTABLE segment of a report has two main-flow responders at one of its TTLs |
| Guarantees.UnstableSegmentsAreComplete | src/stratatrace/controller.py:479-592 | two baseline responders at a TTL within the limit always surface as an UNSTABLE segment over that TTL, with or without global CAP |
| Guarantees.MultipathSegmentsAreSound | src/stratatrace/controller.py:970-999 | every MULTIPATH segment has two responders to flow variants at one of its TTLs |
| Guarantees.StableSegmentsHaveOneResponder | src/stratatrace/controller.py:900-914 | every region segment of a report shows stability 1 exactly when the main flow was answered at a TTL probed for its region and by two responders at none |
| Guarantees.LimitOnlyComesDown | src/stratatrace/controller.py:314-322 | the final limit is at most the one set by the baseline, and equal to it without a terminal reply |
| Guarantees.NothingBeyondLimit | src/stratatrace/controller.py:124-139 | no probe after the baseline exceeds the limit |
| Guarantees.SilentTailIsSilent | src/stratatrace/controller.py:832-879 | a SILENT_TAIL covers only unanswered observations, was swept whole at least once, certifies nothing, and no region's segment reaches past its first TTL |
| Guarantees.CutIsInTheLog | src/stratatrace/controller.py:442-465 | in every run the canary probes of the log are whole sweeps and the cut part of one more; all canaries were sent exactly when none was cut |
| Guarantees.TokensRepeatExactly | src/stratatrace/controller.py:645-686 | for every region of every run, two complete samples share a token exactly when the budget cut a canary at or above the region's end and below the end of its cluster, and the cluster drew a variant |
| Guarantees.CertificateRepeatsExactly | src/stratatrace/controller.py:1023-1036 | so a coverage certificate counts a token twice exactly when its segment lies across the cut, and never after all canaries were sent |
| CutRun.EveryRunRepeats | src/stratatrace/controller.py:1023-1036 | an input for which it happens: with 16 hops and budget 45, on a path whose hops 7 and 9 miss the second sweep, every run certifies the segment 6 to 8 with two samples on one port, its canary cut at TTL 8, and warns twice |
| CutRun.Trace | src/stratatrace/controller.py:113-306 | the controller, run with those settings on that network, returns such a result |
| Guarantees.TokensAreADraw | src/stratatrace/controller.py:1023-1036 | where no token repeats, the complete samples of a window are on distinct tokens of the free pool |
| Guarantees.CoverageIsADraw | src/stratatrace/controller.py:1023-1036 | when every canary asked for is in the log, or the segment does not lie across the cut, the samples behind a coverage certificate are a draw without replacement, of exactly the certified count |
| Guarantees.CertifiedMissIsUnlikely | src/stratatrace/controller.py:1023-1040 | under the same condition, for a certified coverage segment and any branch holding a fraction p of the free tokens, at most delta of the equally likely draws miss the branch |

## Left out

- Sockets, `select`, pacing, clocks and round-trip times: arrivals are sequences of octets grouped into receive rounds; which rounds fall inside the deadline is not modelled.
- Command line, reports, JSON output, warning text and the scripted fixture backend.
- The kernel TCP connect control, and the notes that compare it or the destination's address with the trace; neither touches the path graph.
- `prepare_for_raw_socket` and its platform byte order.
- Interrupted runs: `KeyboardInterrupt` paths of `run` are not modelled.
- A backend that raises: in the controller model every batch is answered, so a probe the packet builders refuse (an odd ICMP payload size outside the 257 condition) does not end a run; `RawBackend` models that refusal as a failed batch.
- Quality of random draws: main flow and tokens are arbitrary choices. Equal likelihood enters only as the counting of draws in `Stats.MissedDrawsBound`.
- Controller.TraceController.Run: requires that the pool leaves a token for every variant the run may need (16384 ports or 65535 identifiers, less the main one where it can lie there); the configuration does not check this and the source would look for a free token forever.
- Floating point: probabilities, rates and bounds are exact reals, and the logarithm formula for the required samples is modelled as the least exponent it denotes; rounding at the boundary is not captured.
- The Wilson interval, which the controller does not use.
- Address text, UTF-8 decoding and signature strings: addresses are 4 or 16 octets, names raw octets, signatures sequences of (TTL, responder).
- Hop summaries keep responders, counts, loss and mutations; round-trip statistics, label and interface lists of a hop are not kept.
- Mutations and reasons are values instead of formatted strings, and the alphabetical order of mutations in a summary is not kept.
- The termination summary beyond its TTL, and the policy section of the result.
- `README.md:190-197` describes MULTIPATH as implying a stable fixed flow and INTERMITTENT a single responder. The family-first branches do not check either, so neither is stated here; the code is followed.
- Groups of suspicious TTLs are kept as (first, last) pairs, and a family's trigger as one reason, which is what the source's reason table amounts to.
