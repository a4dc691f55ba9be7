# A verified model of bgpx

bgpx receives BGP routes from one peer, keeps them in a routing table with running analytics, and
streams what happens to HTTP clients. This project models the parts that carry state or meaning and
proves what they promise. The modules follow the program:

| module | models |
|---|---|
| `Base`, `Bits`, `Octets` | octets, results, bit operations on naturals, big-endian integers, hexadecimal text |
| `Prefixes` | prefix masking, next hops, unicast NLRI |
| `FlowSpec`, `FlowSpecGrammar`, `FlowSpecFidelity` | the FlowSpec decoder, the encoding of RFC 8955 it inverts, and exactly what the shown form keeps |
| `OpenCodec` | message framing, building and parsing OPEN |
| `Attributes`, `AttributeGrammar`, `AttributeValues` | decoding attribute values, and the encodings they are read from |
| `UpdateCodec`, `UpdateGrammar`, `UpdateProperties`, `MessageValues` | UPDATE messages, what one keeps and loses, and what its attributes say |
| `AsPaths`, `AsPathStandard` | the AS path of an UPDATE, and the merge of RFC 6793 it is compared with |
| `Rib`, `RibMap` | the routing table as a list and as a map, independent of how it is stored |
| `Metrics`, `RibStore`, `RibUpdate`, `StoredRoutes`, `EventOrder` | the stored table with its id index, counters and analytics, applying one UPDATE to it, what of the UPDATE is stored, and its events as a client follows them |
| `Interning` | sharing of equal route attributes through a collected pool |
| `History`, `Feed` | the bounded replay history, and clients that subscribe, replay, follow and lag |
| `Session`, `Timers`, `Lifecycle`, `Conversations` | one connection, its timers, the session task from start to stop, and what it makes of the frames and timers it is given |
| `Program` | the session task and the sharing of attributes as one system |
| `LongestMatch` | the longest-prefix search |

Code that works by loops and updates is modelled as methods and classes (`RibStore.Data`,
`History.Ring`, `Interning.Pool`, the decoders' loops), each proved against a specification function;
the results are then proved of those functions. Tasks that interleave are modelled as state machines
whose steps are the program's critical sections, and the results hold for every sequence of steps.

Rendered texts are values of datatypes: a prefix is its address and length, a FlowSpec test its
operator and number, an action its parameters. Instants are counted in nanoseconds. The digest behind a
route's id is a function parameter; it is taken to tell identities apart only in `RibMap` and
`StoredRoutes`, where the assumption is written as a precondition. Everything else holds of any digest, and is stated by id.

## What the code does where a simpler statement would be false

- One UPDATE's announcements are applied before its withdrawals, so an announced route survives its own
  message if and only if the message does not also withdraw it (`RibUpdate.AnnouncedSurvives`); the octets of
  a message that leaves its own route out are in `RibUpdate.BothFieldsAbsent`. Section 4.3 of RFC 4271
  recommends the opposite.
- A later source of routes replaces an earlier one under the same label, MP attributes and plain fields
  alike. `UpdateProperties.UpdateConservesRoutes` says exactly which routes are lost, and that none are if
  and only if every replaced source was empty. `UpdateProperties.PlainReplacesMp` is a family of accepted
  messages that lose routes, `UpdateProperties.LossyMessage` one of them.
- FlowSpec prefixes are not masked and unicast ones are, so FlowSpec rules that differ only in host bits
  stay different (`FlowSpecFidelity.ShownComponentKernel`).
- The shown form of a FlowSpec test drops the AND bit and the value width, keeps six bits of a DSCP value,
  and keeps only the named bits of a bit mask that has any. `FlowSpecFidelity.ShownTestKernel` is the exact
  equivalence. Of components of one type the last is kept, so a rule shows all its components if and only if
  their types are pairwise distinct (`FlowSpecFidelity.AllShownWhenDistinct`).
- AS_PATH and AS4_PATH are merged on every session, by the lengths of the flat lists of numbers. RFC 6793
  discards AS4_PATH on a session of four-octet numbers (section 4.1); on one of two-octet numbers section
  4.2.3 counts as route selection does (a set is one number, a confederation segment none), ignores an
  AS4_PATH that counts more than AS_PATH, and ignores it when AGGREGATOR stands beside AS4_AGGREGATOR and
  holds a real AS number. `AsPathStandard.MergeStandard` is the exact condition under which the two agree for
  any attributes at either width; `FourOctetSession`, `DiscardedAs4Path`, `SetInAsPath`, `SetInAs4Path` and
  `AggregatorOverrules` are messages on which they do not. With AS_SEQUENCE segments only and no such
  aggregator they differ on a two-octet session exactly when AS4_PATH is the longer one, and on a four-octet
  session exactly when AS_PATH does not end in AS4_PATH (`AsPathStandard.SequencesAgree`).
- The shown form of an extended community leaves out spare octets, the AS number beside a rate, how far a rate
  is below zero, the width of a redirect's AS number, and the type of a plain redirect to the next hop.
  `AttributeGrammar.ShownActionKernel` is the exact equivalence for actions whose rates are shown by their
  octets; the program prints a rate above zero without decimals, so that 0.01 and 0.02 look alike as well.
- The announce and withdraw events of one UPDATE are emitted in no fixed order. A client that follows them
  ends with the table's ids in either order if and only if the message withdraws nothing it announces
  (`EventOrder.EventsInEitherOrder`); `EventOrder.ClientLeftWithRoute` is a message after which it does not.
- OPEN parsing ignores octets after the optional parameters (`OpenCodec.OpenComplete`).
- A built message longer than 4096 octets is not understood by the program's own header parser
  (`OpenCodec.FrameRoundTrip` gives the exact bound).
- Sharing of attributes would break if the table were cleared while an update is under way
  (`Interning.ClearDuringUpdate`). `Program.ProgramMatches` derives from the session task's own steps that it
  never is, and `Program.ProgramShares` concludes sharing for every run of the program.
- After a connection fails, the state stays ESTABLISHED until the table has been emptied; the empty table is
  what other threads may see under that state, never routes under IDLE (`Lifecycle.SessionIsSafe`).

## Model

| member | source | states |
|---|---|---|
| Octets.Take | src/wire.rs:8-15 | the cursor yields exactly n octets and the rest, and fails only on too short an input |
| Octets.ReadBeInt | src/wire_helpers.rs:115-121 | the 64-bit accumulator holds the big-endian value modulo 2^64, and the value itself up to eight octets |
| Octets.HexEncode | src/wire_helpers.rs:306-314 | the shift-and-mask loop writes two hexadecimal digits an octet |
| Octets.HexRoundTrip | src/wire_helpers.rs:306-314 | hexadecimal text decodes back to the octets |
| Prefixes.MaskPrefix | src/wire_helpers.rs:62-70 | the in-place masking of an array yields the masked address |
| Prefixes.MaskedBits | src/wire_helpers.rs:62-70 | masking keeps exactly the first len bits and clears all others |
| Prefixes.MaskedCanonical | src/wire_helpers.rs:62-70 | masked forms are equal if and only if the first len bits agree |
| Prefixes.MaskedIdempotent | src/wire_helpers.rs:62-70 | masking twice is masking once |
| Prefixes.PrefixString | src/wire_helpers.rs:42-60 | padding to the family's size, masking on request, refusing unknown families |
| Prefixes.NextHopTells | src/wire_helpers.rs:72-84 | the length of a next hop says how it is shown, a pair has the global address first, and the octets can be read back |
| Prefixes.Unicast | src/wire.rs:89-105 | the NLRI loop computes the list's meaning on any input, without indexing out of range |
| Prefixes.UnicastComplete | src/wire.rs:89-105 | every encoded prefix list is decoded in full and in order |
| Prefixes.UnicastSound | src/wire.rs:89-105 | every accepted input is such a list with nothing left over |
| Prefixes.UnicastIgnoresHostBits | src/wire.rs:89-105 | encodings that differ only past the prefix lengths decode alike |
| Prefixes.UnicastCanonical | src/wire.rs:89-105 | every decoded prefix is in canonical form |
| Prefixes.UnicastRoundTrip | src/wire.rs:89-105 | decoding the encoding of canonical prefixes returns them |
| FlowSpec.ParsePrefix | src/wire_helpers.rs:22-40 | a FlowSpec prefix, its used length, or a refusal on each bound |
| FlowSpec.CollectFlagNames | src/wire_helpers.rs:161-194 | the named bits that are set, lowest first |
| FlowSpec.ReadTests | src/wire.rs:120-139 | the operator/value loop stops after the first pair with the end bit and computes the list's meaning |
| FlowSpec.Components | src/wire.rs:107-144 | the component loop files each decoded component by name |
| FlowSpec.Flowspec | src/wire.rs:146-158 | the rule loop, with the length arithmetic on a 64-bit word, computes the list's meaning |
| FlowSpecGrammar.TablesAgree | src/wire_helpers.rs:1-20 | component types have the names of the standard's table, type 13 only in IPv6, and TCP flags and fragments alone are bit tests |
| FlowSpecGrammar.OpsComplete | src/wire.rs:120-139 | operator lists of any operators, widths and values decode to what they show |
| FlowSpecGrammar.RulesComplete | src/wire.rs:146-158 | every encoded list of rules, with either length form, decodes to exactly those rules |
| FlowSpecGrammar.RulesSound | src/wire.rs:146-158 | every accepted input splits with no leftover into encoded rules, and the result shows them |
| FlowSpecFidelity.ShownTestKernel | src/wire_helpers.rs:86-159 | two tests are shown alike if and only if they differ at most in the dropped bits |
| FlowSpecFidelity.ShownComponentKernel | src/wire.rs:114-140 | components are shown alike if and only if prefixes are equal and tests are alike one by one |
| FlowSpecFidelity.ShownRuleKernel | src/wire.rs:107-144 | any two rules are shown alike if and only if, type by type, their last components are |
| FlowSpecFidelity.AllShownWhenDistinct | src/wire.rs:107-144 | a rule shows all its components if and only if their types are pairwise distinct |
| FlowSpecFidelity.AscendingRuleKernel | src/wire.rs:107-144 | rules with ascending types are shown alike if and only if they are alike component by component, order included |
| FlowSpecFidelity.DuplicateKeepsLast | src/wire.rs:141-141 | of several components of one type the last one is shown |
| OpenCodec.Message | src/wire.rs:32-38 | the built frame: marker, sixteen-bit length, type, body |
| OpenCodec.FrameRoundTrip | src/wire.rs:21-38 | the header parser understands a built frame if and only if the body has at most 4077 octets |
| OpenCodec.Open | src/wire.rs:60-87 | the nested parameter and capability loops compute the parse |
| OpenCodec.OpenComplete | src/wire.rs:60-87 | any encoded list of parameters and capabilities is accepted with the last four-octet AS number, unless the hold time is one or two |
| OpenCodec.OpenSound | src/wire.rs:60-87 | every accepted body is such an encoding plus ignored octets |
| OpenCodec.StrictPrefixRefused | src/wire.rs:60-87 | every strict prefix of an encoded OPEN is refused |
| OpenCodec.BuildOpen | src/wire.rs:40-58 | the builder's loops produce the framed encoding of this speaker's OPEN |
| OpenCodec.BuiltOpenUnderstood | src/wire.rs:21-87 | header and open undo the builder for every AS number, router id and hold time |
| Attributes.ReadSegments | src/wire.rs:192-211 | the AS_PATH loop computes the segments |
| AttributeGrammar.ChunksSound | src/wire_helpers.rs:196-264 | input is cut into as many whole pieces as fit, and nothing is left out when they fit exactly |
| AttributeGrammar.RateComparison | src/wire_helpers.rs:201-214 | the test that tells a discard from a rate is the comparison of the number's real value with zero |
| AttributeGrammar.ActionComplete | src/wire_helpers.rs:196-300 | every action in its encoding is decoded to what it means, with its flags and numbers |
| AttributeGrammar.ActionSound | src/wire_helpers.rs:196-300 | every eight octets are an action in its encoding, and are decoded to it |
| AttributeGrammar.ShownActionKernel | src/wire_helpers.rs:196-300 | two actions are shown alike if and only if they differ at most in what the shown form leaves out |
| AttributeGrammar.Action6Complete | src/wire_helpers.rs:263-300 | the same decoding of the IPv6 communities |
| AttributeGrammar.Action6Sound | src/wire_helpers.rs:263-300 | every twenty octets are such a community in its encoding |
| AttributeGrammar.ShownAction6Kernel | src/wire_helpers.rs:263-300 | two IPv6 communities are shown alike only if they are the same |
| AttributeValues.ValueComplete | src/wire.rs:184-266 | every value a code may hold, at either AS number width, is decoded to what it shows |
| AttributeValues.ValueSound | src/wire.rs:184-266 | every value that is decoded is one its code may hold, in its encoding |
| AttributeValues.SegmentsSound | src/wire.rs:192-211 | every accepted path is the encoding of the segments read |
| Attributes.SegmentsRoundTrip | src/wire.rs:192-211 | decoding an encoded path returns its segments, at either width |
| UpdateCodec.Absorb | src/wire.rs:290-338 | what one attribute adds: entry, next hop, actions, routes under a label |
| UpdateCodec.Resolve | src/wire.rs:340-364 | the redirect actions after the FlowSpec next hop is known, in the actions and in attributes of code 16 |
| UpdateCodec.DecodeUpdate | src/wire.rs:268-377 | the whole decoder computes the parse |
| UpdateGrammar.UpdateComplete | src/wire.rs:268-377 | an encoded triple with one- or two-octet attribute lengths is consumed to the last octet and read attribute by attribute |
| UpdateGrammar.UpdateSound | src/wire.rs:268-377 | every accepted body is such an encoding |
| UpdateGrammar.MessageMeaning | src/wire.rs:331-373 | acceptance if and only if every source of routes can be read; each label then has its last source's routes |
| UpdateProperties.LastSourceWins | src/wire.rs:331-373 | a label holds the routes of its last source |
| UpdateProperties.SectionSource | src/wire.rs:310-336 | an MP attribute that encodes prefixes or rules is a source of exactly them |
| UpdateProperties.SectionSound | src/wire.rs:310-336 | every source that can be read is such an attribute in its encoding, of one of the two families and kinds |
| UpdateProperties.UpdateConservesRoutes | src/wire.rs:310-373 | no route is invented; the lost ones are those of replaced sources, none if and only if only empty sources are replaced |
| UpdateProperties.PlainReplacesMp | src/wire.rs:331-373 | IPv4 unicast routes in MP_REACH_NLRI beside an NLRI field are accepted and all lost |
| UpdateProperties.LossyMessage | src/wire.rs:331-373 | an accepted message with a route that is in a source and not in the result |
| UpdateProperties.DamageIsIsolated | src/wire.rs:282-338 | replacing the value of an attribute other than 3, 14, 15, 16 and 25 changes nothing but its own entry |
| UpdateProperties.DamageOnTheWire | src/wire.rs:282-338 | the same of the encoded messages as decoded from their octets |
| UpdateProperties.UndecodedKept | src/wire.rs:294-301 | an attribute is kept as hexadecimal if and only if it cannot be decoded, and that text gives back its octets |
| MessageValues.MessageSays | src/wire.rs:282-377 | every accepted body is an encoded message whose attributes hold certain values, and its actions, communities, paths and the next hop of its NLRI field are those that these values say |
| MessageValues.ActionsOfMessage | src/wire.rs:305-364 | the actions are those encoded by the attributes of codes 16 and 25, in order, with redirections to a FlowSpec next hop naming it |
| MessageValues.EntryOfMessage | src/wire.rs:290-364 | an entry has its attribute's code, flags, length and value, raw if it holds none; extended communities are shown resolved as well |
| MessageValues.RedirectedShown | src/wire.rs:340-364 | which of the actions on the wire a known next hop rewrites, and to what |
| AsPaths.GatherPath | src/app.rs:340-368 | the attribute loop and merge give the path and communities of the last attributes of each kind |
| AsPaths.MergeShape | src/app.rs:365-368 | length of the longer path, ends in AS4_PATH, keeps the rest of AS_PATH |
| AsPathStandard.StandardKeepsCount | src/app.rs:365-368 | the standard's merge counts as many numbers as AS_PATH and ends in AS4_PATH, as section 4.2.3 of RFC 6793 asks |
| AsPathStandard.MergeStandard | src/app.rs:340-368 | for any attributes, on a session of either AS number width, the path is that of RFC 6793 if and only if the flat lengths cut at the standard's place |
| AsPathStandard.SequencesAgree | src/app.rs:340-368 | with AS_SEQUENCE only and no overruling aggregator: on two-octet sessions if and only if AS4_PATH is not the longer, on four-octet sessions if and only if AS_PATH ends in it |
| AsPathStandard.FourOctetSession | src/app.rs:340-368 | messages on a four-octet session whose AS4_PATH the standard discards and the program merges, and when that makes no difference |
| AsPathStandard.DiscardedAs4Path | src/app.rs:340-368 | one such message, with both paths |
| AsPathStandard.SetInAsPath | src/app.rs:365-368 | a message whose shorter AS4_PATH is merged otherwise than the standard says |
| AsPathStandard.SetInAs4Path | src/app.rs:365-368 | a message whose longer AS4_PATH the standard uses, with another result |
| AsPathStandard.AggregatorOverrules | src/app.rs:340-368 | messages whose AS4_PATH the standard ignores for their aggregators, and when that makes no difference |
| AsPaths.PathReconstructed | src/app.rs:340-368 | a true path carried in two octets with 23456 and its tail in four is restored end to end, however it is segmented |
| Rib.TableIsSurvivors | src/app.rs:530-546 | working through any operations leaves the routes whose last mention announced them, in that order |
| Rib.RunIsSurvivors | src/app.rs:530-558 | the same over runs of updates and clears, counting from the last clear |
| Rib.LastMentionDecides | src/app.rs:386-445 | an id is present afterwards according to its last mention |
| RibMap.TableIsLatest | src/app.rs:386-445 | with ids that tell identities apart, after any UPDATE bodies and clears the table is the map from each identity to its latest route since the last clear, in announcement order |
| RibMap.Play | src/app.rs:338-558 | the two-level store, played through any UPDATE bodies and clears by decoding, applying and clearing, holds that table |
| Metrics.CommunityShare | src/app.rs:467-472 | a unicast route counts a community as often as it carries it, a FlowSpec route never |
| Metrics.OriginShare | src/app.rs:473-475 | a route counts for an AS, once, if and only if it is unicast and its path ends in that number |
| Metrics.NextHopShare | src/app.rs:476-478 | a route counts for a next hop if and only if it is unicast and has that next hop, not an empty one |
| Metrics.LengthShare | src/app.rs:479-481 | a route counts for a prefix length if and only if it is unicast and its prefix is that long |
| Metrics.ActionShare | src/app.rs:483-485 | a FlowSpec route counts an action as often as it carries it, a unicast route never |
| Metrics.ProtocolShare | src/app.rs:487-497 | a test counts as often as it stands in the protocol component |
| Metrics.OnlyFittingKinds | src/app.rs:467-500 | no table counts a value of another kind |
| Metrics.PortShare | src/app.rs:485-497 | a port test counts as often as it stands in the three port components together |
| Metrics.TallyWithout | src/app.rs:501-528 | recounting after taking a route out loses exactly that route's share |
| Metrics.CountersCount | src/app.rs:501-513 | each counter is the number of routes of its family or address family |
| Metrics.CountsAddUp | src/app.rs:501-513 | unicast plus FlowSpec and IPv4 plus IPv6 each count every route once |
| RibStore.Data.CountRoute | src/app.rs:501-528 | adding or taking a route's share keeps counters and analytics equal to the tallies, with no underflow and no zero entry |
| RibStore.Data.Insert | src/app.rs:530-536 | the view grows by the route at the end, index and counters kept |
| RibStore.Data.Remove | src/app.rs:537-546 | the view loses exactly the route of that id, and the result says whether it had one |
| RibStore.Data.ClearAll | src/app.rs:547-558 | everything is emptied but the sequence number, and dirty is set if there was a route |
| RibStore.Data.Stats | src/app.rs:559-571 | each total is the number of stored routes of its own kind, and the two pairs add up to the number of stored routes |
| RibUpdate.ApplyOne | src/app.rs:434-441 | remove then insert is one step of the simple table, and the row names a route id as the code does |
| RibUpdate.ApplyUpdate | src/app.rs:376-457 | one UPDATE is its announcements then its withdrawals on the simple table, with at most one batch of event rows of each kind |
| RibUpdate.RowsAreDecoded | src/app.rs:391-456 | the announce and withdraw events have one row for every route the message decodes to, in the order of its operations |
| StoredRoutes.OperationsFollowRoutes | src/app.rs:389-433 | the k-th route of a group is one operation, at its place in the order of groups and routes, with its own prefix and next hop or its own rule, and the message's path, communities and actions; there are no others |
| StoredRoutes.EveryRouteIsApplied | src/app.rs:389-443 | as a multiset the routes announced and withdrawn are those the message decodes to, empty next hops left out |
| StoredRoutes.AnnouncedIsStored | src/app.rs:386-443 | every route announced and not withdrawn is in the table afterwards with the data of its last occurrence |
| StoredRoutes.OthersAreKept | src/app.rs:386-443 | withdrawn routes are gone afterwards and routes not mentioned stay as they are |
| StoredRoutes.NothingElseIsStored | src/app.rs:386-443 | a route in the table was there before or is one the message announces |
| StoredRoutes.FieldReachesTable | src/app.rs:338-443 | end to end from octets: a prefix in the NLRI field is stored with its leading bits and the message's next hop, path and communities |
| StoredRoutes.SectionReachesTable | src/app.rs:338-443 | end to end from octets: every prefix or rule of an MP_REACH_NLRI is stored with that attribute's next hop, or with the message's actions |
| EventOrder.EventsInEitherOrder | src/app.rs:389-456 | following the two events gives the table's ids with announcements first always, with withdrawals first if and only if nothing is both announced and withdrawn |
| EventOrder.ClientLeftWithRoute | src/app.rs:389-456 | a message after which a client that got the withdraw event first has a route the table lacks |
| RibUpdate.UpdateConservation | src/app.rs:386-445 | routes after = routes before + ids newly announced - withdraw rows that name a route, duplicates included |
| RibUpdate.WithdrawRowNames | src/app.rs:434-440 | a withdraw row names its route if and only if the table had it just before |
| RibUpdate.WithdrawWins | src/app.rs:390-441 | a route withdrawn by a message is absent afterwards, even if the message announces it |
| RibUpdate.AnnouncedSurvives | src/app.rs:390-441 | an announced route is there after its message if and only if the message does not withdraw it |
| RibUpdate.BothFieldsAbsent | src/app.rs:390-441 | the octets of an UPDATE with one prefix in both fields, and its absence afterwards |
| Interning.Pool.Step | src/app.rs:103-134 | the pool's methods keep the pool and the allocations in step with the sharing system, and hand out its references |
| Interning.Pool.Collect | src/app.rs:127-134 | exactly the entries with another holder stay |
| Program.ProgramMatches | src/session.rs:137-187 | every run of the session with collections and copies clears only between updates, and both tables stay the same |
| Program.ProgramShares | src/app.rs:376-438 | in every run of the program each route reads its own attributes, and references are the same object if and only if they read the same |
| Program.ProgramCollects | src/app.rs:127-134 | in every run of the program a collection leaves in the pool exactly what someone else holds |
| Program.ProgramCopies | src/app.rs:742-750 | in every run of the program a reader's copy goes on reading as the table did when it was taken |
| Interning.SharingIsInvisible | src/app.rs:376-438 | the system with references reads, at every moment, as the same system without them |
| Interning.ClearDuringUpdate | src/app.rs:376-438 | a run in which a clear between interning and storing breaks sharing |
| History.Ring.Push | src/app.rs:205-216 | the eviction loop terminates on a non-empty queue and keeps the byte count equal to the sum of lengths |
| History.MakeRoomExact | src/app.rs:207-212 | eviction drops no more than it must |
| History.HistoryExact | src/app.rs:205-216 | after any run the history is the longest suffix within both bounds of the events that are not oversized |
| Feed.RunRecords | src/app.rs:205-217 | every emission is sent whoever listens; where the history was cleared, what snapshots show and who is subscribed follow from the moves alone |
| Feed.HistoryAlwaysExact | src/app.rs:205-217 | in every interleaving of emissions, clears and readers the history is that longest suffix of the events emitted since the last clear |
| Feed.NoGapNoDuplicate | src/app.rs:760-784 | in every interleaving the stream of a client that subscribed is a snapshot, the history of the events emitted before, then every event emitted later in order, each once; it skips only straight after a fresh snapshot newer than all it skips |
| Feed.KeptUp | src/app.rs:770-784 | a reader never overtaken is told exactly the events sent since it joined |
| Feed.ToldOnce | src/app.rs:770-784 | no event is told twice or out of order |
| Feed.NothingMissed | src/app.rs:770-784 | every event up to the place reached was told or covered by a later snapshot |
| Feed.CatchesUp | src/app.rs:770-784 | polling with no new emissions brings any reader to the end, the snapshot answering a lag included |
| Feed.ReadersCatchUp | src/app.rs:760-784 | in every run a subscribed client that goes on reading gets its whole opening and then reaches the last event emitted |
| Feed.ReadersUndisturbed | src/app.rs:760-784 | nothing that others do moves a client's stream on |
| Feed.SnapshotsAreConsistent | src/app.rs:762-781 | every snapshot shows the data of one instant, which is its place in the stream |
| Feed.SnapshotsAreSafe | src/app.rs:572-583 | when the data comes from the session task, no snapshot shows routes except as running and ESTABLISHED |
| Session.Validate | src/session.rs:62-86 | accepts exactly the configurations with positive AS numbers and port, a hold time of zero or at least three and delays in range, and names the first fault |
| Session.HandleFrame | src/session.rs:244-289 | the loop body on its local variables computes the connection's reaction to a frame |
| Session.Connected | src/session.rs:211-291 | the loop over wakes computes the connection's life |
| Session.AcceptsExactly | src/session.rs:230-291 | a connection is up if and only if its hold timer did not go off and the frames are one good OPEN, an empty KEEPALIVE, then KEEPALIVEs and decodable UPDATEs |
| Session.RefusalNamesItsCause | src/session.rs:244-285 | a refused frame ends the connection with the fault that it has at that point of the conversation |
| Session.AppliesExactly | src/session.rs:251-277 | the updates applied are those of the conversation in order, all decoded with the AS number width the OPEN settled |
| Timers.DeadlineFollowsFrames | src/session.rs:227-289 | with a hold time in force the deadline is that long after the last accepted frame or the start; the hold time is zero or at least three |
| Timers.HoldTimerEnds | src/session.rs:234-243 | the hold timer ends a connection if and only if it rings no earlier than the hold time the conversation settled after the latest frame, and never with a hold time of zero |
| Timers.SilenceIsBounded | src/session.rs:234-243 | with punctual timers no session outlives a silence of the hold time, and the hold timer ends it at that instant |
| Timers.KeepalivesOnSchedule | src/session.rs:238-267 | keepalives go out exactly when due, counting from the reply to OPEN |
| Timers.KeepaliveTimerSends | src/session.rs:238-243 | the keepalive timer sends if and only if a conversation with a hold time has begun and the interval has passed since the last one sent |
| Timers.IntervalBounds | src/session.rs:241-267 | the interval is the longest of whole seconds that the hold time has three times |
| Timers.ThreeKeepalivesPerWindow | src/session.rs:238-267 | every window of the hold time since OPEN holds three keepalives, each at least a second after the one before |
| Timers.NeverTooOften | src/session.rs:238-267 | however late the timers are, keepalives are at least a second apart |
| Lifecycle.SessionIsSafe | src/session.rs:137-187 | in every run: routes only while running and ESTABLISHED, ESTABLISHED only after a good OPEN and an empty KEEPALIVE, table and peer information empty whenever IDLE or CONNECT is visible |
| Lifecycle.TableServesConversation | src/session.rs:244-289 | at every loop head the table is what the accepted UPDATEs leave, and state and peer information match the conversation |
| Conversations.ConnectionIsLived | src/session.rs:211-291 | in every run the connection's variables are those of a connection that lives through exactly the frames and timers that found it reading |
| Conversations.FrameDecides | src/session.rs:244-289 | a frame received is acted on if and only if it makes an acceptable conversation with those before it; otherwise the connection is left |
| Conversations.TableServesFrames | src/session.rs:244-289 | at every loop head the table is what the UPDATEs received leave, and state and peer information are those of the frames received |
| Conversations.ShownOnlyWhenHeard | src/session.rs:137-187 | routes, ESTABLISHED and peer information only after the frames received began with a good OPEN and an empty KEEPALIVE, or with that OPEN |
| Conversations.ReadsOn | src/session.rs:244-289 | a task left to itself finishes what a frame calls for and reads on with the same connection |
| Conversations.TaskStarts | src/session.rs:115-138 | a task starts with exactly the valid configurations, and only when none runs |
| Conversations.ConnectionBegins | src/session.rs:137-228 | from the top of its loop a task that finds its peer begins a new conversation |
| Conversations.InterruptedOnlyThere | src/session.rs:142-165 | nothing breaks or stops a task but where it waits: an update being applied is never interrupted |
| Conversations.BreakIsRetried | src/session.rs:159-180 | a broken connection is wiped, shown as IDLE, and tried again by the same task |
| Conversations.RefusalIsRetried | src/session.rs:159-180 | so is one that ends with a refused frame |
| Conversations.HaltEndsTask | src/session.rs:149-187 | a stop request during a connection wipes it, shows IDLE and ends the task |
| Conversations.HaltEndsWaiting | src/session.rs:142-187 | a stop request while waiting ends the task straight away |
| Conversations.EndsOnlyWhenHalted | src/session.rs:137-187 | the task ends only after a stop request made while it runs |
| Lifecycle.SectionsDo | src/app.rs:376-445 | the critical sections of one UPDATE do exactly its announcements and withdrawals, in order |
| LongestMatch.MatchIsAgreement | src/app.rs:718-736 | the shifted-mask comparison is agreement in the first len bits, for both address sizes and every length |
| LongestMatch.SearchFindsLongest | src/app.rs:742-758 | an answer if and only if a stored unicast route covers the address, and one of greatest length |
| LongestMatch.SearchTakesLatest | src/app.rs:742-758 | of several routes of greatest length the latest in the table is answered |
| LongestMatch.AnswerIsUnique | src/app.rs:742-758 | among one peer's routes the winner does not depend on the scan order |
| LongestMatch.UpdateOrderly | src/wire.rs:320-373 | decoded unicast routes are canonical and filed under their own family |
| LongestMatch.LookupIsExact | src/app.rs:742-758 | after any session the answer is the one covering route of greatest length |

## Left out

- JSON and text rendering: addresses, prefixes, tests, actions and events are datatypes, so that different
  values have different renderings is not proved. A rate limit keeps the four octets of its number in place
  of the formatted amount.
- SHA-1 and collisions of 48-bit ids: the digest is a parameter.
- `received_at`, timestamps and the wording of events: clocks and text with no effect on the table.
- Feed.SnapshotsAreConsistent: the configuration, the capture flag and the analytics that a snapshot also shows
  are not modelled.
- Interning.Pool.Step: the three pools are one map keyed by three kinds of content; capacity and allocator calls
  are not modelled.
- Interning.ClearDuringUpdate: says that sharing can break when a clear comes in the middle of an update, not
  for which of those runs it does; the program has none of them.
- RibStore.Data.Insert: the sequence number does not wrap at 2^64.
- Session.Connected: what the network and the timers do is an input, a frame is handled in no time, and a
  failed or late write is an end of the connection in `Lifecycle` only.
- Conversations.ConnectionIsLived: in the session task the end that the hold timer makes is one of the breaks,
  which may come at any time there; when it comes is in `Timers`.
- Lifecycle.SessionIsSafe: the run loop is a step function, since its loops wait for the outside; a start or
  stop request takes effect once the session it waits for has ended, as the control lock makes it.
- RibStore.Data.Stats: the five largest rows of each analytics table, and their order, are not modelled.
- AsPathStandard.MergeStandard: section 6 of RFC 6793, which drops segments from a malformed AS4_PATH, is not
  modelled; paths with segment types that section 3 does not allow have no standard merge here. When a message
  repeats one of these attributes, both sides read the last.
- AttributeGrammar.ShownActionKernel: rates above zero are told apart by their octets, not by their printed
  amounts, since the rounding of the printed amount is not modelled.
- Parsing of the configuration.
- Connecting, accepting, reading sockets, packet capture, HTTP routing, the web page and the command line.
- Writing the table to a file: the dirty mark can be cleared over a concurrent change, as the code's own
  comment says, so that the file equals the table is not true of it.
- Exports: time limits, permits and streaming of the copy. The copy itself is in `Interning`.
- Pages and sorting of columns: easy, and without effect on state.
