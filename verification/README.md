# Routing invariants of babeld, bgpd and bfdd

A Dafny model of the parts of the FRR daemons where correctness is least obvious
from the code, with proofs. `dafny verify dfyconfig.toml` checks all of it.

**Babel** (`babeld/`, RFC 6126)

- `BabelNode` is one router and one prefix: sequence numbers modulo 2^16, the
  feasibility condition, sources, metrics, and every step a router can take.
- `BabelNetwork` lets any number of such routers take steps in any order and
  exchange updates over links that lose, duplicate and reorder. The feasibility
  distance of a grounded next hop is always strictly better than one's own, so a
  loop needs a route that was installed, or given its source, while retracted.
  The code allows both. A run guarded against both is loop free (`LoopFreedom`), and
  for each of the two there is a run that is guarded against the other and ends in a
  loop of two routers with finite metrics (`BabelLoop`, `BabelAdopt`). That sources are
  young enough for this follows, for routers that announce what they know of at least
  every 200 seconds (`TendedLoopFree`). `BabelTables`
  carries loop freedom over to the route tables: the guard is there a condition on what
  a table holds before and after each operation (`TablesLoopFree`).
- `BabelSlots`, `BabelState` and `BabelTable` are the route table as the code keeps
  it: slots in binary search order, lists whose head alone may be installed,
  reference counts, the kernel's table, redistributed routes. Every operation
  keeps them consistent. A prefix is served if one of its usable routes, if it has
  any, is installed; of the operations that answer an event all keep that but two,
  `XrouteDelete` and `RetractNeighbourRoute`, which state exactly when they do, and
  `BabelUnserved` has a run from an empty table for each. At one instant selection never
  returns to a route it has left (`SelectionSettles`), and a route that is considered is
  installed exactly if it is better (`ConsideredExactly`). What an operation does to a prefix
  is a sequence of steps of `BabelNode`, and so of actions of `BabelNetwork`
  (`DeliveryPlays`).
- `BabelMetric` is metric smoothing under any random draws.
- `BabelCodec` and `BabelSender` are the Update encoding, where prefixes, router-ids
  and next hops are compressed against what the packet said before.

**BGP** (`bgpd/`, RFC 4271, RFC 6793, RFC 7911)

- `AsPath` gives segment lists a meaning and shows that the normal form is canonical;
  `AsWire` is the wire format, `AsPacking` and `AsFraming` what it makes of lists that
  were never normalised, `AsText` the text that is also the hash key,
  `AsAggregate` aggregation, and `AsTunnel` the way of a path with 4-byte AS numbers
  through routers that know 2-byte ones.
- `AddPath` accounts for every transmit ID; `AttrIntern` for every reference to a
  shared attribute.

**BFD** (`bfdd/`, RFC 5880): `Bfd` is the handshake of two endpoints over a network
that may do anything to packets but forge them. An endpoint that is up has a peer that
took part in its handshake (`Bidirectional`), and is up exactly until its timer, its peer
or its operator ends that (`UpUntilEnded`).

Where the code falls short of what one would expect of it, a lemma gives an input
that shows it and another the exact condition; for loop freedom it is a sufficient
condition of which neither half can go:

- Babel is loop free with a guard that the code lacks (`LoopFreedom`), and not with
  either half of it alone (`TwoNodeLoop`, `AdoptedLoop`).
- Deleting a redistributed route leaves a prefix unserved exactly when it has a
  usable Babel route (`XrouteDelete`, `UnservedAfterDelete`).
- Retracting the routes of a lost neighbour leaves a prefix unserved exactly when it
  has nothing installed and the route, not expired, had an infinite metric but was not
  retracted (`RetractNeighbourRoute`, `UnservedAfterRetract`).
- After `route_changed` a route that is better than the installed one by its metric and by
  its smoothed metric is left exactly if there was one and the route that is best by its
  smoothed metric is not better by its metric (`RivalsLeft`, `RivalOverlooked`).
- Smoothing with a half-life of 2 overflows for metric differences above 63287
  (`HalfLifeTwo`, `HalfLifeTwoOverflows`).
- The 4-byte wire round trip needs short sets (`WireRoundTrip32`); packing a list that
  was never normalised goes wrong, in its bytes and in what is read back of them,
  exactly when one segment takes two others (`PackingExact`, `UnnormalisedRoundTrip`,
  `PackingTwice`).
- The normal form of a list is canonical exactly when every run of AS_SEQUENCEs in it
  has a non-empty one (`CanonicalExactly`, `EmptySequenceNotCanonical`).
- Attributes that differ only in their label are one object exactly when the labels
  give the same hash key (`InternBoth`, `TwoLabels`).
- The lead of an aggregate is common to both paths only if they do not part inside
  a set (`LeadIsCommon`, `TornSets`); aggregating with oneself drops empty segments
  (`AggregateSelf`).
- The text of a path merges neighbouring AS_SEQUENCEs (`TextExact`).
- An AS4_AGGREGATOR that comes without AGGREGATOR keeps its AS number and loses its
  address (`MungeMerges`).
- A BFD endpoint that is shut down leaves AdminDown when its peer says AdminDown
  (`AdminDownKept`, `ShutdownExact`, `ShutdownUndone`).

What is assumed: calls to zebra and memory allocation succeed; time, random draws,
link costs, filters and martian checks are parameters. The network results assume
link costs of at least 1, sequence numbers of one source, those of retracted routes
aside, within half the number space, and sources younger than their garbage collection
time, as their lemmas say; the last follows from announcing often enough (`TendedIsFresh`).
`BabelNetwork.grounded`, `AttrIntern.outside` and the logs of `BabelSender` are
history variables that the code does not keep.

## Model

| member | source | states |
|---|---|---|
| `AsPath.SortAndWeed` | bgpd/bgp_aspath.c:252-273 | the set branch, in place on an array: what is left is the ascending sequence of the distinct members |
| `AsPath.Normalise` | bgpd/bgp_aspath.c:239-298 | the two nested loops of `assegment_normalise` compute the normal form of any list |
| `AsPath.NormalFormDenote` | bgpd/bgp_aspath.c:239-298 | normalising keeps the meaning of every list of segments |
| `AsPath.NormalFormIsBuild` | bgpd/bgp_aspath.c:239-298 | without empty AS_SEQUENCEs the normal form is a function of the meaning alone |
| `AsPath.CanonicalForm` | bgpd/bgp_aspath.c:239-298 | two lists in which every run of AS_SEQUENCEs has a non-empty one mean the same if and only if their normal forms are equal |
| `AsPath.CanonicalExactly` | bgpd/bgp_aspath.c:239-298 | the normal form is the one its meaning determines if and only if every run of AS_SEQUENCEs in the list has a non-empty one |
| `AsPath.EmptySequenceNotCanonical` | bgpd/bgp_aspath.c:239-298 | an empty AS_SEQUENCE that is left over means nothing and is still told apart |
| `AsPath.NormalFormIsNormal` | bgpd/bgp_aspath.c:239-298 | sets come out strictly ascending and no two AS_SEQUENCEs are left side by side |
| `AsPath.NormaliseIdempotent` | bgpd/bgp_aspath.c:239-298 | normalising twice is normalising once, for every list |
| `AsPath.Compare` | bgpd/bgp_aspath.c:2022-2042 | `aspath_cmp` decides equality of segment lists |
| `AsPath.CountHops` | bgpd/bgp_aspath.c:399-413 | `aspath_count_hops` counts the hops of the meaning, confederations aside |
| `AsPath.CountConfeds` | bgpd/bgp_aspath.c:383-397 | `aspath_count_confeds` counts the confederation hops of the meaning |
| `AsPath.NormalFormAsns` | bgpd/bgp_aspath.c:239-298 | normalising neither hides nor invents an AS number |
| `AsPath.LoopCheck` | bgpd/bgp_aspath.c:1143-1163 | `aspath_loop_check` counts how often the AS number is in the path, so that it is positive exactly for those of the path |
| `AsWire.AspathPut` | bgpd/bgp_aspath.c:874-955 | `aspath_put` writes what the function on byte sequences says and returns the number of bytes written |
| `AsWire.AssegmentsParse` | bgpd/bgp_aspath.c:704-798 | the parse loop accepts, rejects and builds exactly as the function on byte sequences |
| `AsWire.SplitBounded` | bgpd/bgp_aspath.c:892-913 | every segment on the wire holds 1 to 255 AS numbers |
| `AsWire.GetPutAsn` | bgpd/bgp_aspath.c:846-861 | an AS number is read back; in two bytes a large one becomes AS_TRANS |
| `AsWire.ParseEncode` | bgpd/bgp_aspath.c:704-798 | parsing any well-formed wire segments gives the normal form of what they show |
| `AsWire.EncodeParse` | bgpd/bgp_aspath.c:704-798 | whatever is accepted is, byte for byte, an encoding |
| `AsWire.ParseOwnBytes` | bgpd/bgp_aspath.c:704-798 | nothing after the attribute makes a difference to what is read |
| `AsWire.PutThenParse` | bgpd/bgp_aspath.c:874-955 | what a peer reads back of any normalised path, segments over 255 included; the size is the sum of the pieces |
| `AsWire.WireRoundTrip` | bgpd/bgp_aspath.c:874-955 | a 2-byte or 4-byte peer reads back the normal form of the path as that encoding shows it |
| `AsWire.WireRoundTrip32` | bgpd/bgp_aspath.c:874-955 | the 4-byte round trip is exact if and only if every segment other than an AS_SEQUENCE holds at most 255 AS numbers |
| `AsPacking.PackingExact` | bgpd/bgp_aspath.c:892-947 | on any list without empty segments, normalised or not, the bytes are the encoding of the segments as grouped if and only if no segment takes two of those after it |
| `AsFraming.ShortHeader` | bgpd/bgp_aspath.c:704-798 | a stream that starts with an AS_SEQUENCE header too short for its data is never read with that data, however the rest is laid out |
| `AsPacking.UnnormalisedRoundTrip` | bgpd/bgp_aspath.c:874-955 | any such list whose sets are short is read back as its normal form if and only if no segment takes two of those after it |
| `AsPacking.PackingTwice` | bgpd/bgp_aspath.c:915-947 | three one-member sequences: all data is written under a length byte that covers two |
| `AsTunnel.ReconcileAs4` | bgpd/bgp_aspath.c:1635-1735 | `aspath_reconcile_as4` with its early returns and copying loop computes the reconciled path |
| `AsTunnel.ReconcileDenote` | bgpd/bgp_aspath.c:1635-1735 | without confederations, and for an arbitrary AS4_PATH, the result reads: as many leading hops of AS_PATH as it has more, or all of them if it has fewer, then all of AS4_PATH |
| `AsTunnel.ReconcileReads` | bgpd/bgp_aspath.c:1635-1735 | for any AS_PATH: its shortest beginning that weighs what it has more, a confed sequence counting its members and never being split, then all of AS4_PATH |
| `AsTunnel.ReconcileKeepsAsns` | bgpd/bgp_aspath.c:1635-1735 | no AS number of an arbitrary AS4_PATH is lost to loop detection |
| `AsTunnel.ReconcileHopCount` | bgpd/bgp_aspath.c:1635-1735 | the result has the hop count of AS_PATH whenever that is not shorter than AS4_PATH |
| `AsTunnel.MungeAs4Attrs` | bgpd/bgp_attr.c:1444-1547 | `bgp_attr_munge_as4_attrs` computes the attributes of which the next four rows speak |
| `AsTunnel.MungeNeedsPath` | bgpd/bgp_attr.c:1452-1461 | only a missing AS_PATH is an error |
| `AsTunnel.MungeFromAs4` | bgpd/bgp_attr.c:1463-1482 | from a 4-byte peer AS_PATH and AGGREGATOR are those received, whatever AS4_PATH and AS4_AGGREGATOR hold |
| `AsTunnel.MungeForeign` | bgpd/bgp_attr.c:1487-1510 | so they are from a 2-byte peer that sends an AS4_AGGREGATOR beside an AGGREGATOR other than AS_TRANS |
| `AsTunnel.MungeMerges` | bgpd/bgp_attr.c:1511-1547 | in every other case the path reads as the two merged, and the aggregator is the one of AS4_AGGREGATOR, with the address only if there was an AGGREGATOR |
| `AsTunnel.CheckAs4` | bgpd/bgp_aspath.c:463-475 | `aspath_has_as4` is true exactly for paths with an AS number above 65535 |
| `AsTunnel.AddSeqDenote` | bgpd/bgp_aspath.c:1550-1589 | prepending puts one hop in front of the meaning and keeps the path normalised |
| `AsTunnel.TunnelPreservesMeaning` | bgpd/bgp_attr.c:3106-3212 | a path sent as AS_PATH and AS4_PATH, passed on by any relays with 2-byte numbers, is rebuilt as the normal form of the relays followed by the path, and AGGREGATOR with it |
| `AsAggregate.Aggregate` | bgpd/bgp_aspath.c:1019-1096 | the loops of `aspath_aggregate` compute the common lead followed by a set of the rest |
| `AsAggregate.AsSetAdd` | bgpd/bgp_aspath.c:982-1016 | an AS number already in the set is not added again |
| `AsAggregate.AggregateAsns` | bgpd/bgp_aspath.c:1019-1096 | the AS numbers of the aggregate are exactly those of both paths |
| `AsAggregate.AggregateCommutes` | bgpd/bgp_aspath.c:1019-1096 | the order of the two paths does not matter |
| `AsAggregate.AggregateSelf` | bgpd/bgp_aspath.c:1019-1096 | a normalised path aggregated with itself comes back if and only if it has no empty segment |
| `AsAggregate.LeadIsCommon` | bgpd/bgp_aspath.c:1033-1067 | the leading part is the longest common beginning of the two paths if and only if they do not part inside a set or a confederation segment |
| `AsAggregate.TornSets` | bgpd/bgp_aspath.c:1033-1067 | two sets that share their first member: the aggregate is longer than both paths |
| `AsText.MakeStr` | bgpd/bgp_aspath.c:478-619 | the growing buffer is always large enough, its final assertion holds, and it holds the text of the path |
| `AsText.SegTextFits` | bgpd/bgp_aspath.c:551-558 | the room reserved for a segment exceeds its text and the space after it |
| `AsText.NextToken` | bgpd/bgp_aspath.c:1882-1943 | the loops of `aspath_gettoken` compute the next token, with 32-bit wrap-around |
| `AsText.StrToAspath` | bgpd/bgp_aspath.c:1945-2005 | the loop of `aspath_str2aspath` computes the parse of any string, or fails on an unknown token |
| `AsText.RefusedExactly` | bgpd/bgp_aspath.c:1945-2005 | a text is refused if and only if it has a character without meaning; brackets need not match |
| `AsText.NumbersKept` | bgpd/bgp_aspath.c:1945-2005 | of an accepted text no number is lost, added or moved |
| `AsText.NumberWraps` | bgpd/bgp_aspath.c:1919-1935 | a string of digits of any length is one number, modulo 2^32 |
| `AsText.DecimalRead` | bgpd/bgp_aspath.c:1919-1935 | a printed AS number is read back without wrapping around |
| `AsText.TextRoundTrip` | bgpd/bgp_aspath.c:1945-2005 | reading back the text of any path gives it with neighbouring AS_SEQUENCEs run together and empty ones dropped |
| `AsText.TextExact` | bgpd/bgp_aspath.c:1945-2005 | the round trip is exact if and only if no AS_SEQUENCE is empty or follows another |
| `AsText.SameText` | bgpd/bgp_aspath.c:2008-2018 | equal hash keys mean equal meanings, and equal paths for normalised ones |
| `BabelNode.SeqnoCompareExact` | babeld/util.h:58-65 | for any two numbers, `seqno_compare` orders them as they are ordered if and only if they are equal or their difference, modulo the size of the space, is less than half of it |
| `BabelNode.SeqnoPlusMinus` | babeld/util.h:67-77 | `seqno_minus` undoes `seqno_plus` |
| `BabelNode.FeasibleIffSafe` | babeld/route.c:595-612 | a finite update is feasible if and only if every distance its sender may have reached is strictly better than ours |
| `BabelNode.UpdateSourceImproves` | babeld/source.c:117-135 | `update_source` never makes a live distance worse, and makes it at least as good as what was announced |
| `BabelNode.UpdateSourceFresh` | babeld/source.c:117-135 | after a finite announcement, and whatever it was before, a source is stale exactly from SOURCE_GC_TIME seconds on; a stale one then holds what was announced, and an infinite announcement changes nothing |
| `BabelNode.MetricIsSum` | babeld/route.h:65-70 | a metric is the sum of its parts, and infinite exactly if that is |
| `BabelNode.NoninterferingMetric` | babeld/route.h:72-81 | without interference it is no worse, equal at a factor of 256, and counts the cost for that many parts of 256 to the nearest number |
| `BabelNode.MetricGrows` | babeld/route.h:65-81 | an announced finite metric is worse than the one it derives from |
| `BabelNode.StepKeepsNodeInv` | babeld/route.c:783-986 | every step of a router keeps sources for its routes, no route for its own id, and at most one installed, none beside a redistributed route |
| `BabelNetwork.StepKeepsInv` | babeld/route.c:783-986 | every step of any number of routers over lossy, reordering, duplicating links keeps each grounded next hop strictly better |
| `BabelNetwork.LoopsNeedAnUngroundedRoute` | babeld/route.c:783-986 | in every run a loop of installed routes for one source contains a route installed, or given that source, while retracted |
| `BabelNetwork.GuardIsExact` | babeld/route.c:946-986 | an action keeps every installed route grounded if and only if it neither installs a retracted route nor gives an installed one another source by a retraction; this is about the history flag, not yet about loops |
| `BabelNetwork.LoopFreedom` | babeld/route.c:595-612 | with that guard no run forms a loop for any source |
| `BabelNetwork.TendedIsFresh` | babeld/source.c:117-135 | routers that announce what they know of at least every SOURCE_GC_TIME seconds never have a stale source |
| `BabelNetwork.TendedLoopFree` | babeld/route.c:595-612 | so a guarded run of such routers forms no loop, without any assumption on the age of sources |
| `BabelNetwork.LocalStepsPlay` | babeld/route.c:946-1111 | what a table does by local steps, the network does by local actions, other routers and messages untouched |
| `BabelNetwork.DeliveryPlays` | babeld/route.c:783-916 | `update_route`, as the table performs it, is a delivery followed by local actions of the receiver |
| `BabelTables.ReachedSafely` | babeld/route.c:946-986 | what a table reaches by local steps without ending in a revived retracted route, it reaches without ever installing one |
| `BabelTables.EventRuns` | babeld/route.c:783-916 | an operation of one table that revives no retracted route is a guarded run of the network, fresh and windowed throughout if its first and last states are |
| `BabelTables.TablesLoopFree` | babeld/route.c:783-916 | over every run of table operations of any number of routers that revive no retracted route there is no loop for any source |
| `BabelLoop.TwoNodeLoop` | babeld/route.c:958-977 | a run of three routers that breaks the guard only by installing a retracted route and ends in a loop of two with finite metrics |
| `BabelAdopt.AdoptedLoop` | babeld/route.c:837-862 | the same for a run that breaks it only by giving an installed route another source by a retraction |
| `BabelMetric.Roughly` | babeld/util.c:46-55 | the range of what `roughly` may return |
| `BabelMetric.RouteSmoothedMetric` | babeld/route.c:636-672 | for any elapsed time and any draws both loops end, the value stays between the old one and the metric, each half-life takes away at least three eighths of the difference, rounding aside, and a second call at the same instant changes nothing; after 23 half-lives the value is the metric; every product fits 32 bits unless the half-life is 2 and the metrics were more than 63287 apart |
| `BabelMetric.NothingRemains` | babeld/route.c:636-672 | the bound on the difference is below four, where it is dropped, after 23 half-lives |
| `BabelMetric.FactorIsRoot` | babeld/route.c:614-634 | the factor is the root of two that it stands for: up to one part in 11000 for half-lives to 4, and from the logarithm of 2 for others |
| `BabelMetric.ProductFits` | babeld/route.c:614-672 | intermediate products fit 32 bits for every half-life of at least 3 |
| `BabelMetric.HalfLifeTwo` | babeld/route.c:614-672 | with a half-life of 2 the product fits for every draw if and only if the metric and the smoothed metric are at most 63287 apart |
| `BabelMetric.HalfLifeTwoOverflows` | babeld/route.c:614-672 | a difference that the metrics can have, and a draw for it, that overflows |
| `BabelTable.Router.FindRouteSlot` | babeld/route.c:74-103 | the binary search finds the slot of a prefix, or the only place where it belongs |
| `BabelTable.Router.FindRoute` | babeld/route.c:105-124 | finds the route with this neighbour and next hop, or there is none |
| `BabelTable.Router.FindXroute` | babeld/xroute.c:97-107 | finds the redistributed route of a prefix, or there is none |
| `BabelTable.Router.UninstallRoute` | babeld/route.c:431-448 | the kernel table stays the mirror of the installed routes |
| `BabelTable.Router.SwitchRoutes` | babeld/route.c:377-486 | installing and switching: the route comes first in its list, and the kernel table stays the mirror |
| `BabelTable.Router.KernelModify` | babeld/kernel.c:110-121 | a modification is a deletion and an addition, or nothing |
| `BabelTable.Router.KernelSays` | babeld/kernel.c:110-187 | packets for a prefix go the way of its installed route, nowhere if that is retracted, and are not Babel's if there is none |
| `BabelTable.Router.SmoothedMetric` | babeld/route.c:636-672 | reading a smoothed metric changes that and its time only, and is idempotent at one instant |
| `BabelTable.Router.FindBestRoute` | babeld/route.c:674-718 | the first of the acceptable routes of least smoothed metric, or there is none; smoothed metrics that were compared are up to date |
| `BabelTable.Router.BestMeans` | babeld/route.c:674-718 | what is acceptable: alive, not the excluded neighbour's, and feasible if asked for; with none found every route fails one of these |
| `BabelTable.Router.ConsiderRoute` | babeld/route.c:946-986 | switches exactly when the route is feasible, not installed, not shadowed by a redistributed one, and wanted; smoothed metrics that are up to date stay, and the two that are weighed are brought up to date |
| `BabelTable.Router.ConsideredExactly` | babeld/route.c:946-986 | a feasible route of a prefix that is not redistributed is the head afterwards if and only if its metric is finite and that of the installed one is not, or its metric is no worse and its smoothed metric, brought up to date, is lower |
| `BabelTable.Router.SwitchLowers` | babeld/route.c:964-977 | each switch strictly lowers (is infinite, smoothed metric) of the installed route |
| `BabelTable.Router.SelectionSettles` | babeld/route.c:946-986 | over every run of selection steps on a slot at one instant, a route that was left is never installed again |
| `BabelTable.Router.FewChanges` | babeld/route.c:946-986 | and the installed route changes fewer times than there are routes |
| `BabelTable.Router.ChangedIsRun` | babeld/route.c:1069-1090 | route_changed on the installed route is such a run |
| `BabelTable.Router.NoSwitchBack` | babeld/route.c:1069-1090 | its second consider_route never switches back |
| `BabelTable.Router.RivalsLeft` | babeld/route.c:1068-1089 | after route_changed on the installed route an acceptable route that is better by both metrics is left if and only if there was one before and the best by its smoothed metric, the only one considered, is not of a lower metric |
| `BabelTable.Router.RivalOverlooked` | babeld/route.c:1068-1089 | three routes with up-to-date metrics of which the installed one is worse by both than another, and route_changed keeps it |
| `BabelTable.Router.RouteChanged` | babeld/route.c:1068-1089 | which route is considered, in which order, and with what result |
| `BabelTable.Router.RouteLost` | babeld/route.c:1092-1111 | the best feasible route is considered |
| `BabelTable.Router.ChangedKept` | babeld/route.c:1068-1089 | after `route_changed` nothing installed is lost and a feasible route is not left alone |
| `BabelTable.Router.ChosenServed` | babeld/route.c:1092-1111 | after `route_lost` a prefix with a usable route has one installed |
| `BabelTable.Router.NoneExpired` | babeld/route.c:1068-1111 | neither route_changed nor route_lost installs a route that has expired |
| `BabelTable.Router.FlushRoute` | babeld/route.c:199-248 | the route goes and one reference to its source with it; a usable route replaces it; other prefixes are untouched |
| `BabelTable.Router.FlushMatching` | babeld/route.c:270-313 | both flush walks end, whatever is installed and reordered on the way, and exactly the matching routes are gone; the others keep neighbour, next hop, cost, time and hold time |
| `BabelState.UnmatchedMeans` | babeld/route.c:270-313 | which those are: of the neighbour, or of the interface, and for IPv4 only those whose next hop is IPv4-mapped |
| `BabelTable.Router.FlushAllRoutes` | babeld/route.c:250-268 | no route is left, nothing in the kernel table, and every source is released |
| `BabelTable.Router.ChangeRouteMetric` | babeld/route.c:488-523 | the kernel follows an installed route, and the old metric is smoothed first |
| `BabelTable.Router.RetractRoute` | babeld/route.c:525-531 | the route becomes infinite in place |
| `BabelTable.Router.RetractNeighbourRoute` | babeld/route.c:989-1007 | what `retract_neighbour_routes` does to one route; a served prefix stays served if and only if the route was retracted already or not this neighbour's, had a finite metric or has expired, or the prefix is redistributed or has an installed route |
| `BabelUnserved.UnservedAfterRetract` | babeld/route.c:998-1001 | a run from an empty table in which retracting a route of infinite metric leaves its prefix unserved |
| `BabelTable.Router.UpdateRouteMetric` | babeld/route.c:720-745 | an expired route is retracted, another takes over the cost, and any change of metric is acted upon; no other route is altered but in its place and smoothed metric |
| `BabelTable.Router.RemeasuredMeans` | babeld/route.c:720-745 | the expired one is infinite and newer than anything its source has said, the other has the metric of the new cost |
| `BabelTable.Router.InsertRoute` | babeld/route.c:166-197 | the route goes to the end of its slot, or into a new one in order |
| `BabelTable.Router.UpdateRoute` | babeld/route.c:783-916 | all invariants are kept, a served prefix stays served, and what happens is the protocol step of accepting the update followed by local steps on that prefix alone; a new route is appended and considered; a known one has what the update says and the new hold time, and is as old as now if the update is finite and feasible or kept, else as old as before, and no other route is altered |
| `BabelState.AliveUntil` | babeld/route.c:783-916 | such a route is usable, if feasible, up to its hold time, and no longer |
| `BabelTable.Router.HoldsFive` | babeld/route.c:783-796 | the hold time is at least 15 seconds and outlasts five intervals, and not many more |
| `BabelTable.Router.NewRouteWaits` | babeld/route.c:877-900 | a new route starts with the larger of its metric and half of infinity as its smoothed metric |
| `BabelTable.Router.FindOrCreateSource` | babeld/source.c:42-79 | a source is found, or made with an infinite distance and no references |
| `BabelTable.Router.RetainSource` | babeld/source.c:82-88 | one more reference |
| `BabelTable.Router.ReleaseSource` | babeld/source.c:90-95 | one less; the assertion that there was one holds |
| `BabelTable.Router.ExpireSources` | babeld/source.c:137-155 | exactly the sources without a reference that were last announced more than SOURCE_GC_TIME ago go; the rest keep all but a time in the future; no route notices |
| `BabelState.ExpiredKeepsAll` | babeld/source.c:97-155 | a source in use is never freed |
| `BabelTable.Router.Announce` | babeld/message.c:1230-1273 | `update_source` after an announcement is the protocol step of announcing; the source is then not stale for SOURCE_GC_TIME, or nothing has changed if the metric is infinite |
| `BabelTable.Router.XrouteAddNewRoute` | babeld/xroute.c:137-231 | only a better metric changes anything, and then no Babel route to the prefix stays installed, and none is lost |
| `BabelTable.Router.XrouteDelete` | babeld/xroute.c:66-95 | the redistributed route goes; the prefix is served if and only if it has no usable route, since none is installed instead |
| `BabelUnserved.UnservedAfterDelete` | babeld/xroute.c:66-95 | a run from an empty table in which deleting the redistributed route leaves a usable route uninstalled |
| `BabelState.RemovedXrouteAt` | babeld/xroute.c:109-119 | swap-delete removes one prefix from the array and no other |
| `BabelCodec.MaskPrefix` | babeld/util.c:237-252 | the buffer holds the first bits of the address and zeros |
| `BabelCodec.ShortIsNotV4` | babeld/util.c:404-408 | a masked prefix of fewer than 96 bits is never taken for an IPv4 one |
| `BabelCodec.ParsePacket` | babeld/message.c:374-621 | the loop over the TLVs of a packet computes the events and the state of the receiver |
| `BabelCodec.FramesEncode` | babeld/message.c:809-859 | what was framed is found again, TLV by TLV |
| `BabelCodec.AnyPrefixRead` | babeld/message.c:70-128 | however an encoder that follows section 4.4.9 of RFC 6126 compresses a prefix, it is read back |
| `BabelCodec.AnyUpdateRead` | babeld/message.c:474-572 | what a receiver makes of any encoder's Update: what it remembers by the two flags, and the event for the router-id, next hop and prefix it then knows, or none without one of the first two |
| `BabelCodec.AnyNextHopRead` | babeld/message.c:454-473 | any encoder's next hop is remembered for its address family |
| `BabelCodec.UnreadableForgets` | babeld/message.c:484-496 | an Update whose prefix cannot be read is for nobody, and if it was to be remembered both remembered prefixes are forgotten |
| `BabelCodec.UnreadableNextHop` | babeld/message.c:454-463 | a next hop that cannot be read makes the receiver forget both |
| `BabelCodec.OmissionRefused` | babeld/message.c:484-491 | an omission that refers to nothing remembered cannot be read |
| `BabelCodec.WildcardRead` | babeld/message.c:530-537 | a wildcard Update retracts everything if its metric is infinite, and else does nothing |
| `BabelSender.PrefixParses` | babeld/message.c:70-128 | the receiver rebuilds the prefix from what is sent and what it remembers |
| `BabelSender.UpdateUnderstood` | babeld/message.c:1031-1127 | one update: the receiver sees exactly what was asked for, and both sides are in step again |
| `BabelSender.WildcardUnderstood` | babeld/message.c:1403-1430 | a wildcard retraction is seen as one, and both sides are in step again |
| `BabelSender.UpdateFits` | babeld/message.c:1057-1058 | the longest update with all that precedes it takes 50 bytes, less than the 60 reserved |
| `BabelSender.SaysOnce` | babeld/message.c:1061-1101 | what one Update has said the next does not say again: the router-id, the next hop, and the bytes its prefix shares with one that was remembered |
| `BabelSender.Omit` | babeld/message.c:1081-1085 | as many bytes are omitted as the prefix shares with the remembered one, and no more |
| `BabelSender.Interface.FlushBuf` | babeld/message.c:721-763 | the packet goes out, is parsed into what was asked for, and everything said in it is forgotten |
| `BabelSender.Interface.EnsureSpace` | babeld/message.c:801-807 | a flush happens exactly when there is too little room |
| `BabelSender.Interface.ReallySendUpdate` | babeld/message.c:1031-1127 | the receiver will see exactly the update with its filtered metric; a flush can only come before it |
| `BabelSender.Interface.SendWildcardRetraction` | babeld/message.c:1403-1430 | the retraction is added to what the receiver will see |
| `BabelSender.Interface.SendOther` | babeld/message.c:809-859 | other messages in between change nothing the receiver sees of routes |
| `BabelSender.Interface.AllIsSent` | babeld/message.c:721-763 | after a flush everything asked for is in the packets, in order, and each packet is parsed into its share |
| `Bfd.Session.Receive` | bfdd/bfd_packet.c:605-744 | the session after a packet and the packets sent at once; one with an unknown discriminator changes and sends nothing |
| `Bfd.AnswersMean` | bfdd/bfd_packet.c:671-744 | a final packet is sent exactly in answer to a poll, and another exactly if the session went up or down; both carry the state it has then |
| `Bfd.Session.RecvTimer` | bfdd/bfd.c:335-355 | the session after the detection timer, and a packet exactly if it was Init or Up |
| `Bfd.Session.SetShutdown` | bfdd/bfd.c:465-502 | the session after shutdown and no shutdown, and a packet exactly if it is newly shut down |
| `Bfd.Bidirectional` | bfdd/bfd_packet.c:671-693 | in every run an endpoint that is up sent a packet that its peer received, and the peer, active ever since, sent one that it received, and it has been up ever since |
| `Bfd.DiscriminatorsHold` | bfdd/bfd_packet.c:638-645 | in every run an active endpoint knows the discriminator of its peer, so Init and Up packets carry that of their receiver |
| `Bfd.ActiveExact` | bfdd/bfd.c:335-355 | in every run an endpoint in Init or Up stays so through a step if and only if it is not its timer, nor an AdminDown packet, nor a Down packet while up, nor a change of its shutdown |
| `Bfd.UpExact` | bfdd/bfd_packet.c:676-693 | in every run it comes up exactly by an Init packet in Down or an Init or Up packet in Init, and leaves Down for Init exactly by a Down packet |
| `Bfd.UpUntilEnded` | bfdd/bfd.c:335-355 | failure detection: over every run an endpoint that is up is up exactly as long as none of those happens, and not active after the first that does |
| `Bfd.FailureForgets` | bfdd/bfd.c:335-355 | after the timer, or a packet that takes it down, what it says next names no peer, and it does not poll |
| `Bfd.PollsUntilFinal` | bfdd/bfd_packet.c:648-654 | in every run an endpoint that has come up polls exactly until it hears a Final bit |
| `Bfd.AdminDownKept` | bfdd/bfd_packet.c:672-674 | a packet leaves an endpoint shut down if and only if it does not say AdminDown itself |
| `Bfd.ShutdownExact` | bfdd/bfd_packet.c:672-674 | until it is undone a shutdown holds in exactly the runs in which no AdminDown packet is received |
| `Bfd.ShutdownHolds` | bfdd/bfd.c:466-484 | as long as the peer has not been shut down, a shutdown holds over every run until it is undone |
| `Bfd.ShutdownUndone` | bfdd/bfd_packet.c:672-674 | a run in which an endpoint that is shut down comes up |
| `AddPath.UpdateNode` | bgpd/bgp_addpath.c:391-421 | after the three loops exactly the eligible paths have an ID, the pool is empty, kept IDs do not move, and old and new IDs are nested, equal when as many are needed as before |
| `AddPath.AssignedMeans` | bgpd/bgp_addpath.c:391-421 | with all paths announced every path has an ID, else exactly those that deterministic MED selected |
| `AddPath.GiveIds` | bgpd/bgp_addpath.c:409-417 | IDs come from the pool while it lasts, and only then from the allocator |
| `AddPath.FreeUnused` | bgpd/bgp_addpath.c:398-407 | exactly the IDs of paths that are not eligible go to the pool |
| `AddPath.Drain` | lib/id_alloc.c:375-386 | every ID of the pool is freed, and each was in use |
| `AddPath.Nested` | bgpd/bgp_addpath.c:391-421 | why the IDs nest |
| `AddPath.EachOnce` | bgpd/bgp_addpath.c:93-103 | every allocated ID but the reserved ones is in exactly one place |
| `AddPath.TxIds.UpdateIds` | bgpd/bgp_addpath.c:383-422 | the above for one node, with all IDs accounted for and other nodes untouched |
| `AddPath.TxIds.TypeChanged` | bgpd/bgp_addpath.c:268-307 | an allocator exists exactly while a peer uses the strategy; starting gives every eligible path an ID, stopping takes all, else nothing changes; no path is lost |
| `AddPath.TxIds.PopulateType` | bgpd/bgp_addpath.c:215-258 | every eligible path of every node gets an ID of its own, and no path is lost |
| `AddPath.TxIds.FlushType` | bgpd/bgp_addpath.c:185-212 | every ID is freed before the allocator is destroyed, and no path is lost |
| `AddPath.TxIds.FreeInfo` | bgpd/bgp_addpath.c:92-103 | a path goes and its ID stays with the node |
| `AddPath.TxIds.FreeNode` | bgpd/bgp_addpath.c:136-146 | a node goes and its pool goes back to the allocator |
| `AttrIntern.Store.InternShared` | bgpd/bgp_aspath.c:635-652 | the component, or the one with the same content, gains a reference |
| `AttrIntern.Store.UninternShared` | bgpd/bgp_aspath.c:324-339 | a component is released exactly when that was its last use |
| `AttrIntern.Store.Intern` | bgpd/bgp_attr.c:633-702 | the attr with this key, these fields and contents gains a reference, or is added with one; nothing else gains or loses any |
| `AttrIntern.Store.Unintern` | bgpd/bgp_attr.c:862-882 | the attr and each component lose one reference, and each goes exactly when that was its last |
| `AttrIntern.Store.UninternSubs` | bgpd/bgp_attr.c:801-838 | every component of the attr loses exactly one reference |
| `AttrIntern.Store.InternThenUnintern` | bgpd/bgp_attr.c:633-882 | doing both leaves every table with the references it had |
| `AttrIntern.Store.SameObject` | bgpd/bgp_attr.c:486-572 | two interned attrs are the same object if and only if their fields, the contents of their components and their hash keys are equal |
| `AttrIntern.Store.InternBoth` | bgpd/bgp_attr.c:486-572 | an attr and the same with another label become one object if and only if the labels give the same key |
| `AttrIntern.TwoLabels` | bgpd/bgp_attr.c:500-500 | two objects for two attrs that differ in nothing the comparison looks at |
| `AttrIntern.PointersDecide` | bgpd/bgp_attr.c:530-572 | comparing pointers decides whether components hold the same |

## Left out

- The walks that recompute metrics route by route (`update_neighbour_metric`,
  `update_interface_metric`, `retract_neighbour_routes`, `expire_routes`): they follow
  list links that `route_changed` may rearrange under them. What they do to each route is
  modelled (`UpdateRouteMetric`, `RetractNeighbourRoute`, `FlushRoute`).
- Requests, acknowledgements, resending, triggered updates and when they are sent: in
  the network model anything may be sent at any time. Buffering and sorting of pending
  updates before they are encoded is not modelled either.
- Garbage collection of sources in the network model; the table model has it.
- The packet header, malformed packets, sub-TLV contents and the check that the
  receiving interface has an IPv4 address: the codec model covers bodies made of whole
  TLVs, and hands sub-TLVs on as bytes.
- Sockets, threads, timers, configuration, logging, show commands and JSON.
- BFD echo mode, demand mode, timer negotiation, session lookup by address, labels.
  `SessionUp` always sends its packet, which the code leaves to echo start if the peer
  echoes.
- Encapsulation and VNC sub-TLVs, EVPN, MP_REACH and communities' own operations; the
  scalar fields of an attr that are compared are one value, and the hash function is
  arbitrary.
- Exhaustion of add-path IDs; the allocator's pages and bit masks are a set.
- BabelTable.Router.RetainSource: does not model the assertion that a count stays below 65535.
- BabelTable.Router.UpdateRoute: takes the outcome of the martian check, the input filter and
  the link cost as arguments, and does not model channels or requests for a new seqno.
- BabelTable.Router.SwitchRoutes: does not model a refusal by zebra, as for a next hop of another
  address family.
- BabelTable.Router.XrouteAddNewRoute: uninstalls before it adds, which the code does in the other
  order within one call.
- BabelSender.Interface.FlushBuf: does not model the updates that are still pending when the
  code flushes, which it encodes first.
- AsText.MakeStr: does not model the 16-bit length that callers keep of the text.
- AsWire.AspathPut: does not model the 16-bit segment length field in memory.
- Segment lists, route lists and hash tables are sequences and maps: what the model does
  not capture is aliasing between their nodes. Sorting by `qsort` is a function.
