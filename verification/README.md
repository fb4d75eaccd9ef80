# aDNS in Dafny

A model of the attested DNS authority: how it signs zones and answers from
them, how it rebuilds a zone from stored records, how its request handlers
change the service tables, how it schedules work for secondaries, and how its
governance votes and ratchets. `dafny verify dfyconfig.toml` checks the whole
project.

## What is modelled

**Zones.** `Names`, `Records`, `Signing`, `Denial` and `Base32` give the data
of crates/adns-dnssec and crates/adns-wire. `Zone` specifies
`sign_with_keysets`, `Resolver` the lookup and answer rules, `Rehydration` the
function `from_signed_records`. `ZoneLoops` and `RehydrationLoops` are the same
operations as they run, loop by loop, proved equal to the specifications.
`ZoneFacts` states the index invariant that every signed zone satisfies;
`Answers`, `Queries`, `ResolveProofs`, `SignatureProofs`, `AnswerProofs` and
`RehydrationProofs` build the main results on it. `CanonicalOrder` spells out the
orders, `SignedOctets` reads the signed octets back, `ZoneContents` and
`RehydrationContents` say what signing and rebuilding accept and what they make
of it. `SigningProgress` tells which zones can be signed and
`PassProgress` when a maintenance pass can therefore commit, and `ZoneExamples`
holds zones that reach the exceptional cases. A name is written
root first, so that "subdomain of" is "has as prefix" and canonical order is
lexicographic.

**Service.** `Contributions` is the record table of one zone with its usage
counters, `Anchors` the anchor log with its encoded keys, `Registry` the
registrations, challenges and zones with one function per signed operation,
`Service` the request path (nonces, results, failed attempts), maintenance and
epochs. `ServiceProofs` proves the invariants over every run, `Authority` who
may act and by what a registration changes, `Publication` which records each
operation adds and removes, and `Ownership` that no record outlives its authority.
`ContributionLoops`, `ServiceLoops` and `Server` are the imperative forms; the
class `Server.Server` holds the tables.

**Secondaries.** `Scheduler` specifies `secondary_requests`,
`secondary_response`, `provision_transfer_key` and the two governance actions
that feed them, with the field checks of `FieldText`;
`SchedulerProofs` proves one row per job and the turn of every job over runs in
which requests, responses, governance, provisioning and publishing are
interleaved freely; `SchedulerLiveness` proves exactly which calls are accepted
and what that means for whole runs, `SchedulerReplies` what is handed out and
which replies are believed, `SchedulerRepair` when a stopped scheduler
can be brought back; `SchedulerLoops` is the imperative form.

**Governance.** `Voting` specifies the vote rule and reputation settlement,
`VotingProofs` and `VotingCaps` prove what the weight cap computes,
`VotingRules` the rule case by case, `VotingOutcomes` and `VotingAlone` what the
outcomes satisfy, `VotingRuns` what
holds through every change of reputations and parameters; `VotingLoops` is the
imperative form. `Ratchet` is the release
authority, the signed node-join policy and the immutable appraisal policies.

**Canonical JSON.** `JsonText` and `Json` specify canonical text and the strict
parser, `JsonRoundTrip` and `JsonProofs` relate them, `JsonOrder` says what makes
the text canonical, `JsonLoops` is the buffer-writing form.

Cryptography, wire codecs, random draws and clocks are parameters: the `Env`,
`Library`, `Oracle` and `Checks` values are arbitrary functions, and the theorems
hold for all of them; a theorem about success says what it needs of them. A refused
request leaves its tables as they were, because its transaction is discarded.

## Where the code differs from its description

- `from_signed_records` refuses the records of a zone it signed itself when a
  CNAME is published at the owner name of an NSEC3 record, and only then
  (`RehydrationProofs.RehydrationInvertsSigning`). An alias at the name of the
  apex's own NSEC3 record does it (`ZoneExamples.ClashingAliasIsNotRehydrated`).
- An RRSIG query through a wildcard is answered NODATA with a bitmap that lists
  RRSIG, and that is the only such case (`ResolveProofs.NodataIsProved`). It
  takes no more than a wildcard address (`ZoneExamples.WildcardNodataListsRrsig`).
- The comment on `resolve` in constitution.js says that neither one veteran nor
  a flood of newcomers can carry a decision alone. The second half holds with
  the default parameters: ballots of newcomers alone never settle anything
  (`VotingAlone.NewcomersNeverDecide`). The first half does not, because the
  member cap is relative to the capped subtotal, before newcomers are scaled. A
  lone yes carries a proposal exactly when there are more newcomers than a fifth
  of the capped subtotal, the voter is not one of them, and its capped weight is
  more than half (high impact: at least two thirds) of what the veterans weigh;
  a lone no stops one exactly when it is at least half (high impact: a third) of
  that, or, where newcomers are not cut, a third of the whole and the proposal
  is of high impact (`VotingAlone.LoneBallotDecidesIff`). Reputations
  4, 2, 1, 1, 1, 1, 1, 1 let the first agent carry anything
  (`VotingAlone.OneOfTwoVeteransCarries`), and each of 2, 2, 2 can stop a
  high-impact proposal (`VotingAlone.OneOfThreeEqualsStops`).
- A call for secondary work is accepted exactly when every governed row is
  allowed, the zone of every job it looks at exists and its random ids are new
  (`SchedulerLiveness.RequestAcceptedIff`). One missing zone therefore stops the
  work of all secondaries after fewer than N/256 further calls
  (`SchedulerLiveness.MissingZoneStopsCalls`, `SchedulerLiveness.OneMissingZoneStopsAll`).
- Every governed row is validated in every call, revoked or not, and governance
  takes as a secondary's endpoint any text of 1 to 128 characters without spaces
  and control characters. A host name with a port is taken and stops the scheduler
  for good (`SchedulerRepair.HostNameStopsTheScheduler`). The scheduler can be
  brought back exactly when no row is beyond repair
  (`SchedulerRepair.CallsResumeIff`, `SchedulerRepair.RowRepairableIff`), which for
  rows that governance made means that every endpoint is a socket address
  (`SchedulerRepair.StoppedForGoodIff`).
- Governance may add a zone to a key whose secret is already provisioned, and a
  secret is never replaced. From then on every call of every secondary is refused,
  until governance narrows the key's zones again or revokes it
  (`SchedulerRepair.WideningStopsTheCall`, `SchedulerRepair.WidenedKeyStopsTheRun`,
  `SchedulerRepair.NarrowingRestores`).
- The twelve capping rounds are said to iterate to a fixed point. They do for
  every percentage exactly while no reputation exceeds 13
  (`VotingCaps.TwelveRoundsSufficeIff`), and at the default 34 percent exactly
  while none exceeds 142 (`VotingCaps.TwelveRoundsSufficeAtDefaultIff`); every other
  percentage has a bound of its own (`VotingCaps.SettlesAtEachPercentage`).
- The bounds on reputations are not applied when they change, and minimum and
  maximum are compared only when both are given (`VotingRuns.BoundsCanBeMissed`).
  They stay within bounds through a run exactly when every change in it leaves
  bounds that they fit (`VotingRuns.RunsStayInOrderIff`); settling brings voters
  back (`VotingRuns.SettlingRestoresVoters`).
- Challenge ids are 128 bits of a digest and are not checked against those in
  use: a clash across zones leaves a record without an owner, and nothing else
  does (`Ownership.AlwaysOwnedIff`, `Ownership.ClashLeavesOrphan`).
- Endorsements are grouped by DID in a plain JavaScript object. A DID that is the
  name of an inherited member, such as `__proto__` or `constructor`, passes the
  field checks and is not grouped as `Ratchet.GroupEndorsements` states.

## Model

| member | source | states |
|---|---|---|
| `Names.WildcardFits` | crates/adns-wire/src/name.rs:171-181 | the wildcard child of any proper ancestor of a legal name fits 255 octets, so `prepend_wildcard` on a closest encloser cannot fail |
| `Names.SubtreeContiguous` | crates/adns-wire/src/name.rs:188-192 | in canonical order every name outside a subtree lies before all of it or after all of it |
| `CanonicalOrder.NamesAscend` | crates/adns-wire/src/name.rs:188-192 | one name is before another exactly if at some label from the root they first differ and there the first has ended or has the smaller octet at the first difference, or ends first |
| `CanonicalOrder.EnumerationsAscend` | crates/adns-dnssec/src/zone.rs:211-299 | names, hashes and RRsets are enumerated in that order, RRsets of one owner by ascending type |
| `Base32.HashLabelInjective` | crates/adns-wire/src/encoding.rs:42-64 | different digests get different NSEC3 owner labels |
| `Base32.HashLabelReadsBack` | crates/adns-wire/src/encoding.rs:42-64 | eight symbols 0-9 and a-v stand for every five octets of a digest, read by place value they are the same number |
| `Denial.ChainPartition` | crates/adns-dnssec/src/denial.rs:40-48 | a link covers a value exactly when the value is not in the chain and the link is its wrapped predecessor, including the one-element chain |
| `Denial.NextIs` | crates/adns-dnssec/src/zone.rs:211-254 | nothing of the chain lies between a member and its successor, and the last is followed by the first |
| `Denial.CoversWholeSubtree` | crates/adns-dnssec/src/denial.rs:40-48 | an interval whose ends lie outside a subtree covers all of it or none of it |
| `Signing.ComputeSignatureInput` | crates/adns-dnssec/src/sign.rs:121-162 | the loops compute the octets that SignedOctets.SignedOctetsAre reads back: owner walked up to the counted labels, RDATA sorted and deduplicated, first failure reported |
| `Signing.FindSignedOwner` | crates/adns-dnssec/src/sign.rs:126-132 | the climb ends at the wildcard below the ancestor with the counted labels |
| `Signing.CollectWires` | crates/adns-dnssec/src/sign.rs:136-148 | the RDATA of every record, or the first inconsistency or codec failure |
| `Signing.WildcardExpansionKeepsInput` | crates/adns-dnssec/src/sign.rs:121-162 | records equal to the stored wildcard set up to owner, order and repetition have the same signed octets, at any expansion depth |
| `Signing.WindowIsExact` | crates/adns-dnssec/src/sign.rs:178-181 | a signature made at t passes the time test at exactly the 32-bit instants from t-300 to t+validity, across wraparound |
| `SignedOctets.SignedOctetsAre` | crates/adns-dnssec/src/sign.rs:121-162 | read back by length octets and place value, the signed octets are the signature's fields without its bits and then one record per distinct RDATA, ascending, each with the signed owner, the covered type, class 1, the original TTL and its length |
| `SignedOctets.SignatureInputOkIff` | crates/adns-dnssec/src/sign.rs:121-162 | exactly which RRsets have signed octets: one owner, type, class and TTL, no more counted labels than the owner has, a fitting wildcard owner, and RDATA below 65536 octets |
| `SignedOctets.SignatureFields` | crates/adns-dnssec/src/sign.rs:49-88 | a signature carries the set's type, TTL and owner, its labels without a leftmost asterisk, the window, key tag and signer, and is the key's over those octets |
| `ZoneFacts.SignedIsWellFormed` | crates/adns-dnssec/src/zone.rs:67-314 | every signed zone has parent-closed names, proper cuts, one denial record per name linked in order, exact bitmaps and data-then-signature RRsets |
| `ZoneContents.PlannedIff` | crates/adns-dnssec/src/zone.rs:76-206 | exactly which requests pass the checks: one to four key-signing keys, records of the zone, class and type, one SOA and an NS record at the apex, no nested delegations, only name server addresses below one, aliases alone and not at the apex, bounded NSEC3 parameters |
| `ZoneContents.ChainedIff` | crates/adns-dnssec/src/zone.rs:207-262 | the chain can be built exactly when, with NSEC3, no two names share a hash and every hashed owner fits 255 octets |
| `ZoneContents.SignedFrameIs` | crates/adns-dnssec/src/zone.rs:121-314 | a signed zone has the SOA's serial, the window, the request's delegations, and as names exactly the visible owners and their ancestors down to the apex |
| `ZoneContents.SignedDataAre` | crates/adns-dnssec/src/zone.rs:81-182 | its data are, up to equality on the wire, exactly the retained records, the DNSKEY set with flags 257 and 256 and the SOA's TTL, the NSEC3 parameters, and the denial records |
| `ZoneContents.SignedSetsAscend` | crates/adns-dnssec/src/zone.rs:264-299 | every RRset is distinct data in ascending wire order followed by its signatures |
| `ZoneContents.DenialRecordIs` | crates/adns-dnssec/src/zone.rs:207-262 | every name has its denial record with the smaller of SOA TTL and minimum, the mode's parameters and owner, linked to the name or hash that follows |
| `ZoneLoops.CollectNames` | crates/adns-dnssec/src/zone.rs:183-201 | the ancestor walk collects exactly the visible owners and their ancestors, with their type sets |
| `ZoneLoops.FindCnameConflict` | crates/adns-dnssec/src/zone.rs:202-206 | the type table shows a conflict exactly when a visible CNAME has company or stands at the apex |
| `ZoneLoops.PrepareZone` | crates/adns-dnssec/src/zone.rs:67-206 | the checks and the published records equal their specification, errors in source order |
| `ZoneLoops.IndexHashes` | crates/adns-dnssec/src/zone.rs:228-235 | the hash index is complete and inverse to hashing, or two names collide |
| `ZoneLoops.BuildDenial` | crates/adns-dnssec/src/zone.rs:207-262 | the NSEC or NSEC3 records built by index arithmetic are the specified chain, or the specified failure |
| `ZoneLoops.SignAllSets` | crates/adns-dnssec/src/zone.rs:264-299 | RRsets are signed in key order, stopping at the first failure |
| `ZoneLoops.SignWithKeysets` | crates/adns-dnssec/src/zone.rs:67-314 | the whole imperative signing equals its specification, errors included |
| `Resolver.FindClosestEncloser` | crates/adns-dnssec/src/zone.rs:322-338 | the climb returns the deepest existing ancestor and the next closer name, or fails exactly when there is none |
| `Queries.CutDecides` | crates/adns-dnssec/src/zone.rs:478-483 | the delegation found is the only one at or above the name, and none is found exactly when none governs the query |
| `Queries.TypeDecides` | crates/adns-dnssec/src/zone.rs:517-531 | the type looked up is the one asked for, and for ANY the least type at the name that is none of NSEC, NSEC3 and NSEC3PARAM |
| `Queries.EncloserDecides` | crates/adns-dnssec/src/zone.rs:322-338 | the closest encloser found is the only one there is |
| `Queries.SoaPairIs` | crates/adns-dnssec/src/zone.rs:339-359 | the SOA of a negative answer is the zone's with the smaller of its TTL and minimum, sent with its first signature under that TTL |
| `Answers.ChainPartitionsNames` | crates/adns-dnssec/src/zone.rs:360-365 | `covering` returns a record exactly for what can be denied, that record covers it, and no other record does |
| `Answers.NsecCoversWholeSubtree` | crates/adns-dnssec/src/zone.rs:425-435 | in an NSEC zone the record covering a missing name covers the next closer name and everything below it |
| `ResolveProofs.ServfailIffHashClash` | crates/adns-dnssec/src/zone.rs:470-636 | a query into the zone fails with rcode 2 exactly when DNSSEC is on, nothing at the name answers it, the name does not exist, and the hash of the next closer name or of the missing wildcard is an existing name's |
| `ResolveProofs.NxdomainIff` | crates/adns-dnssec/src/zone.rs:470-636 | rcode 3 is returned exactly when nothing at the name answers, neither the name nor the wildcard below its closest encloser exists, and no such hash clash stops the proof |
| `ResolveProofs.NxdomainIsProved` | crates/adns-dnssec/src/zone.rs:406-447 | an rcode 3 answer carries the SOA and exactly the records matching or covering closest encloser, next closer and wildcard, with signatures, and nothing else |
| `ResolveProofs.NodataIsProved` | crates/adns-dnssec/src/zone.rs:406-633 | a NODATA answer carries the SOA and exactly the records matching the name, or matching the wildcard and proving that no closer name exists, with signatures; the matching bitmap lists no CNAME, and lists the queried type exactly for RRSIG through a signed wildcard |
| `ResolveProofs.UnsignedReferralIsProved` | crates/adns-dnssec/src/zone.rs:482-517 | a referral without DS carries exactly the NS set of the cut and, with its signature, the record of the cut, which lists NS and not DS |
| `AnswerProofs.StoredSetIsServed` | crates/adns-dnssec/src/zone.rs:517-545 | the RRset asked for is served in stored order, authoritative, rcode 0 and nothing else: all of it with DNSSEC, its records other than signatures without |
| `AnswerProofs.AliasIsServed` | crates/adns-dnssec/src/zone.rs:561-577 | without it the alias at the name is served likewise |
| `AnswerProofs.SignaturesAreServed` | crates/adns-dnssec/src/zone.rs:546-560 | an RRSIG query gets exactly the signatures at the name |
| `AnswerProofs.ServedSetVerifies` | crates/adns-dnssec/src/zone.rs:517-545 | every signature served verifies over the data served with it under a key of the zone, and each key that is to sign the set has signed it |
| `AnswerProofs.ReferralIsServed` | crates/adns-dnssec/src/zone.rs:478-516 | a delegated query gets the NS set, with DNSSEC the DS set, and as additional records exactly the addresses of name servers within the delegation |
| `AnswerProofs.RefusedIff` | crates/adns-dnssec/src/zone.rs:471-477 | rcode 5, without records, is the answer exactly outside the zone |
| `AnswerProofs.NodataIsServed` | crates/adns-dnssec/src/zone.rs:448-580 | an existing name without what is asked gets rcode 0 and, without DNSSEC, only the SOA |
| `AnswerProofs.MissingNameIsDenied` | crates/adns-dnssec/src/zone.rs:581-635 | a missing name gets rcode 3, or 0 when its wildcard exists without what is asked, and, without DNSSEC, only the SOA |
| `SignatureProofs.EveryAuthoritativeSetIsSigned` | crates/adns-dnssec/src/zone.rs:264-299 | an RRset carries signatures exactly when it is authoritative, each of them verifying over its data under the zone's keys, one by every key-signing key on the DNSKEY set and by the zone-signing key on any other |
| `SignatureProofs.ExpansionAnswers` | crates/adns-dnssec/src/zone.rs:594-631 | a query answered by a wildcard gets its RRset in stored order under the query name, rcode 0: all of it with exactly the records that prove that no closer name exists, without DNSSEC only its data and nothing else |
| `SignatureProofs.ExpandedAnswerVerifies` | crates/adns-dnssec/src/zone.rs:406-631 | every signature served with a wildcard-expanded answer verifies over the received records in any order and with any repetition, and the authority section is exactly the proof that no closer name exists |
| `SigningProgress.SigningSucceedsIff` | crates/adns-dnssec/src/zone.rs:67-314 | where codec and keys do not fail, a zone of valid names can be signed exactly when the validity is allowed, its records are admitted, the chain can be built, every RRset has one TTL and every CNAME set one content |
| `PassProgress.PassCommitsIff` | crates/adns-server/src/zone.rs:56-126 | where codec and keys do not fail, maintenance commits exactly when time has not moved back and each zone to be signed again has admitted records, a chain, a time and validity that fit and no name with two aliases; base and contributed records together always have one TTL to an RRset |
| `ZoneExamples.ClashingAliasIsNotRehydrated` | crates/adns-dnssec/src/zone.rs:888-909 | the zone with an alias at the owner of the apex's NSEC3 record is signed and its records are refused |
| `ZoneExamples.RrsigThroughWildcard` | crates/adns-dnssec/src/zone.rs:531-633 | RRSIG asked through a wildcard without an alias is NODATA, and its record lists RRSIG exactly when something at the wildcard is signed |
| `ZoneExamples.WildcardNodataListsRrsig` | crates/adns-dnssec/src/zone.rs:531-633 | the zone with one wildcard address answers so for every other name below the apex |
| `ZoneExamples.ExceptionsAreReached` | crates/adns-dnssec/src/zone.rs:67-985 | both exceptional cases occur, in two zones given in full |
| `Rehydration.FoldsFindExtremes` | crates/adns-dnssec/src/zone.rs:860-879 | within half the circle the running folds return the latest inception and the earliest expiration |
| `Rehydration.FoldsIgnoreOrder` | crates/adns-dnssec/src/zone.rs:860-879 | within half the circle the folds depend only on which times occur |
| `RehydrationLoops.ReadRecords` | crates/adns-dnssec/src/zone.rs:825-859 | one pass separates data from signatures and collects RRsets and names, refusing exactly the malformed signatures |
| `RehydrationLoops.AttachSignatures` | crates/adns-dnssec/src/zone.rs:860-887 | each signature joins the RRset it covers, refusing exactly those without a set or with another TTL |
| `RehydrationLoops.CheckSets` | crates/adns-dnssec/src/zone.rs:888-909 | the scan accepts exactly when every rebuilt RRset passes the checks |
| `RehydrationLoops.ReadChain` | crates/adns-dnssec/src/zone.rs:910-971 | the stored chain is accepted exactly when every name has its one record with the right successor, with the first failure otherwise |
| `RehydrationLoops.FromSignedRecords` | crates/adns-dnssec/src/zone.rs:763-985 | the whole imperative rebuild equals its specification, errors included |
| `RehydrationProofs.RehydrationInvertsSigning` | crates/adns-dnssec/src/zone.rs:763-985 | rebuilding from the records of a signed zone gives back that zone in every field, except and exactly except when a CNAME stands at an NSEC3 owner |
| `RehydrationContents.RehydratedIff` | crates/adns-dnssec/src/zone.rs:763-985 | exactly which record lists are accepted: zone, class, type, SOA and NS; parameters; every signature's algorithm, length, signer, labels, RRset and TTL; every RRset's TTL, alias and signature; every name's one link; some signature |
| `RehydrationContents.RehydratedFrameIs` | crates/adns-dnssec/src/zone.rs:763-985 | the accepted zone has those records, their SOA's serial, and the names, delegations and mode they show |
| `RehydrationContents.RehydratedSetsAre` | crates/adns-dnssec/src/zone.rs:825-887 | its RRsets are the data of one owner and type in stored order and then exactly the signatures over them |
| `RehydrationContents.RehydratedChainIs` | crates/adns-dnssec/src/zone.rs:910-971 | its chain links are the records found for the names, and its hash index inverts hashing |
| `RehydrationContents.RehydratedInceptionIs` | crates/adns-dnssec/src/zone.rs:860-879 | its inception is the latest of the signatures' |
| `RehydrationContents.RehydratedExpirationIs` | crates/adns-dnssec/src/zone.rs:860-879 | its expiration is the earliest of the signatures' |
| `SchedulerLoops.Reap` | crates/adns-ccf/src/lib.rs:505-526 | the scan keeps exactly the authorized fresh rows and returns their jobs |
| `SchedulerLoops.CollectServing` | crates/adns-ccf/src/lib.rs:527-552 | the governed rows are refused exactly when one is not allowed or they exceed 512, and those served are collected |
| `SchedulerLoops.CollectJobs` | crates/adns-ccf/src/lib.rs:553-564 | the nested loops and the sort enumerate exactly the served jobs that have no pending row, in job order |
| `SchedulerLoops.ExamineQueue` | crates/adns-ccf/src/lib.rs:573-630 | the batch loop stops at 256 items or the end of the queue, with the specified rows and errors |
| `SchedulerLoops.Secondaries.HandleRequests` | crates/adns-ccf/src/lib.rs:490-641 | the handler moves the tables as specified and keeps the invariant; a refused call changes nothing |
| `SchedulerLoops.Secondaries.HandleResponse` | crates/adns-ccf/src/lib.rs:643-737 | an accepted response, its masked flags and question matching the request, updates its secondary's status and consumes its row; a refused one changes nothing |
| `SchedulerLoops.Secondaries.ProvisionKey` | crates/adns-ccf/src/lib.rs:93-152 | a secret is stored for exactly the governed zones and digest, the same one again is acknowledged, and no stored secret is ever replaced |
| `SchedulerProofs.AlwaysOnePerJob` | crates/adns-ccf/src/lib.rs:505-526 | over every run there is at most one pending row per key, zone and kind, and at most 512 governed keys |
| `SchedulerProofs.CallShortens` | crates/adns-ccf/src/lib.rs:566-638 | an accepted call that does not reach a job moves the cursor at least 256 jobs closer to it |
| `SchedulerProofs.EveryEligibleJobIsTaken` | crates/adns-ccf/src/lib.rs:553-638 | a job eligible at every accepted call is taken within ceil(N/256) of them, N being the jobs ever eligible, whatever else happens in between |
| `SchedulerLiveness.RequestAcceptedIff` | crates/adns-ccf/src/lib.rs:490-641 | a call is accepted exactly when every governed row is allowed, every job up to the 256th request has its zone, and the draws for those requests succeed with new, different ids |
| `SchedulerLiveness.AcceptedExaminesBatch` | crates/adns-ccf/src/lib.rs:573-630 | an accepted call examines exactly those jobs |
| `SchedulerLiveness.EveryJobGetsItsTurn` | crates/adns-ccf/src/lib.rs:527-638 | while rows are allowed, served zones exist and ids are new, a job that stays eligible is taken within ceil(N/256) of all calls made |
| `SchedulerLiveness.MissingZoneStopsTheCall` | crates/adns-ccf/src/lib.rs:575-583 | a call with a missing zone anywhere in its batch is refused and leaves every table and the cursor as they were |
| `SchedulerLiveness.MissingZoneStopsCalls` | crates/adns-ccf/src/lib.rs:553-638 | while the zone of an eligible job stays missing fewer than N/256 further calls are accepted in any run |
| `SchedulerRepair.BadRowStopsEveryCall` | crates/adns-ccf/src/lib.rs:527-540 | a row whose name, endpoint or digest is not allowed, or a revoked row with zones that are not, refuses every call of every later run |
| `SchedulerRepair.RowRepairableIff` | crates/adns-ccf/src/lib.rs:442-463 | a row is of that kind exactly when no run of requests, responses, governance, provisioning and publishing makes it allowed |
| `SchedulerRepair.CallsResumeIff` | crates/adns-ccf/src/lib.rs:490-641 | some run leads to an accepted call exactly when no row is of that kind |
| `SchedulerRepair.RunsKeepRowsChecked` | ccf/governance/constitution.js:2099-2106 | over every run governance's rows pass its field checks, so that one is of that kind exactly when its endpoint is no socket address |
| `SchedulerRepair.StoppedForGoodIff` | ccf/governance/constitution.js:2099-2106 | a table filled by governance has stopped for good exactly when one of its endpoints, even of a revoked key, is no socket address |
| `SchedulerRepair.OtherRowsCanBeRepaired` | ccf/governance/constitution.js:2099-2106 | any other row becomes allowed by setting passable zones and revoking, and no other row changes |
| `SchedulerRepair.BadEndpointStopsTheScheduler` | ccf/governance/constitution.js:2099-2102 | once governance has taken an endpoint that is no socket address, no call of any run is accepted |
| `SchedulerRepair.HostNameStopsTheScheduler` | ccf/governance/constitution.js:1848-1850 | `ns2.example.:53` is taken for any new key, and no call is accepted again |
| `SchedulerRepair.RunsKeepSecrets` | crates/adns-ccf/src/lib.rs:93-152 | over every run a stored secret is never replaced and matches its governed key in name and digest |
| `SchedulerRepair.ServingRowAllowedIff` | crates/adns-ccf/src/lib.rs:806-825 | the row of an active provisioned key is allowed exactly when its endpoint is a socket address and its zones are within those of its secret |
| `SchedulerRepair.WideningStopsTheCall` | ccf/governance/constitution.js:2101 | adding a zone to a provisioned key is accepted and the next call is refused |
| `SchedulerRepair.WidenedKeyStopsTheRun` | crates/adns-ccf/src/lib.rs:816-822 | every call of a run is refused until governance narrows the zones of a widened key or revokes it |
| `SchedulerRepair.NarrowingRestores` | ccf/governance/constitution.js:2101 | with the zones of its secret the key is served and allowed again |
| `SchedulerLiveness.OneMissingZoneStopsAll` | crates/adns-ccf/src/lib.rs:575-583 | a table with two allowed keys, one of them for a zone not yet created, refuses every call although the other key's work could be done |
| `SchedulerProofs.RowsAreGoverned` | crates/adns-ccf/src/lib.rs:505-526 | after an accepted call every row is authorized and fresh, and rows do not outnumber governed jobs |
| `SchedulerReplies.EligibleIff` | crates/adns-ccf/src/lib.rs:505-564 | a job is eligible exactly if its key is governed, not revoked and provisioned, its zone is the key's, and no request for it of the last five minutes still agrees with governance |
| `SchedulerReplies.CallHandsOut` | crates/adns-ccf/src/lib.rs:505-641 | an accepted call keeps exactly the requests still wanted and hands out at most 256 new ones under new ids, each for an eligible job not already confirmed, to the governed endpoint, with the zone's serial |
| `SchedulerReplies.ResponseAcceptedIff` | crates/adns-ccf/src/lib.rs:643-737 | exactly which replies are believed: to a request at most five minutes old, from its endpoint, under the governed secret, with its id, response, opcode, authoritative, truncation and error bits, its one question and, for SOA, one serial |
| `SchedulerReplies.ResponseRecords` | crates/adns-ccf/src/lib.rs:700-737 | a confirmed notification records the serial it was sent for, an SOA answer its serial and the time; the request is consumed and nothing else changes |
| `SchedulerProofs.IdentityIsPermanent` | ccf/governance/constitution.js:2099-2106 | over every run a revoked transfer identity keeps its row unchanged and an identity never changes endpoint or secret |
| `VotingProofs.RoundShrinksGap` | ccf/governance/constitution.js:2319-2325 | a capping round that changes something closes the gap to the cap or shrinks it by at least 16 of every 50 |
| `VotingProofs.CapLoopReachesFixedPoint` | ccf/governance/constitution.js:2316-2325 | at the default percentage, for three or more agents with reputations 1 to 142, the twelve rounds end at a fixed point, no weight above max(1, 34 percent of the capped subtotal) |
| `VotingCaps.CapLoopIsGreatest` | ccf/governance/constitution.js:2316-2325 | for every percentage the rounds never cut below a weighting within the cap, so a fixed point reached is the greatest one |
| `VotingCaps.TwelveRoundsSufficeIff` | ccf/governance/constitution.js:2319-2325 | for all percentages governance may set, twelve rounds reach the fixed point from every choice of reputations up to m exactly when m is at most 13 |
| `VotingCaps.TwelveRoundsSufficeAtDefaultIff` | ccf/governance/constitution.js:2319-2325 | at the default percentage they reach it from every choice of reputations up to m exactly when m is at most 142 |
| `VotingCaps.SettlesAtDefault` | ccf/governance/constitution.js:2319-2325 | at the default percentage they reach it from any reputations, however large, whose greatest is close enough to 34 percent of the sum |
| `VotingCaps.SettlesAtEachPercentage` | ccf/governance/constitution.js:2319-2325 | for each percentage they reach it from any gap within its reach and from all reputations up to its own bound, and at 100 always |
| `VotingCaps.CapLoopCanStopShort` | ccf/governance/constitution.js:2319-2325 | for every greatest reputation from 143 on some reputations are not at the fixed point after twelve rounds |
| `VotingOutcomes.NewcomersWithinShare` | ccf/governance/constitution.js:2326-2334 | newcomers together hold at most their percentage of the capped subtotal and all other weights stay |
| `VotingRules.NewcomersGetGreatestShare` | ccf/governance/constitution.js:2326-2334 | newcomers within their percentage keep their weights, beyond it each gets the greatest equal weight that keeps them within, and all others stay |
| `VotingRuns.CapHoldsOnEveryLedger` | ccf/governance/constitution.js:2316-2334 | in every ledger reached by registrations, settlements and changes of parameters newcomers are within their share, and no weight exceeds the member cap while reputations are at most 13, or 142 at the default percentage |
| `VotingRuns.NewcomersNeverDecideOnAnyLedger` | ccf/governance/constitution.js:2276-2353 | wherever the default parameters are in force and reputations up to 142, ballots of newcomers alone leave every proposal open in every ledger, whoever else is a member |
| `VotingOutcomes.OutcomeMonotone` | ccf/governance/constitution.js:2285-2353 | turning agents' ballots from no to yes never moves the outcome from accepted towards rejected |
| `VotingOutcomes.FurtherBallotMonotone` | ccf/governance/constitution.js:2285-2353 | a further agent ballot never moves the outcome away from what it says |
| `VotingRules.StatementIsAccepted` | ccf/governance/constitution.js:2288 | a proposal of verdicts only is accepted whatever the ballots |
| `VotingRules.TrapdoorDecides` | ccf/governance/constitution.js:2295-2301 | the first ballot of an active trapdoor decides, yes accepting and no rejecting |
| `VotingRules.FindingHoldsOpen` | ccf/governance/constitution.js:2302-2311 | a block of an active author of enough reputation holds a high-impact proposal open until a trapdoor votes |
| `VotingRules.WeightsDecide` | ccf/governance/constitution.js:2312-2353 | otherwise the weights of the agents that said no and yes, each counted once, decide against the thresholds of the kind of proposal |
| `VotingRules.SettlementMovesVoters` | ccf/governance/constitution.js:2221-2240 | settling moves every agent that voted a step up or down, stopped at the bounds, as it was with or against the outcome, and nobody else |
| `VotingAlone.SoleVeteranDecides` | ccf/governance/constitution.js:2316-2353 | with the default parameters one veteran among two or more newcomers decides by its ballot alone |
| `VotingAlone.NewcomersAloneStayOpen` | ccf/governance/constitution.js:2316-2337 | with the default parameters three or more agents without a veteran leave every proposal open |
| `VotingAlone.LoneBallotDecidesIff` | ccf/governance/constitution.js:2276-2353 | exactly when one ballot settles a proposal under the default parameters and reputations up to 142, for yes and no, routine and high impact, in terms of capped weights, newcomers and veterans |
| `VotingAlone.LoneBallotInGeneral` | ccf/governance/constitution.js:2285-2353 | the same for all parameters and reputations, in terms of the weight and total that both caps leave |
| `VotingAlone.CapPreventsCarrying` | ccf/governance/constitution.js:2276-2353 | for all parameters with a member percentage below the threshold no lone yes carries where the loop settles, newcomers are within their share and the percentage means at least one |
| `VotingAlone.NewcomersNeverDecide` | ccf/governance/constitution.js:2276-2353 | under the default parameters distinct ballots of newcomers alone settle nothing, whatever veterans there are |
| `VotingAlone.CountedIs` | ccf/governance/constitution.js:2326-2335 | under the default parameters newcomers keep their weight of one each or, exactly when they outnumber a fifth of the capped subtotal, lose all of it |
| `VotingAlone.OneOfTwoVeteransCarries` | ccf/governance/constitution.js:2316-2353 | reputations 4, 2 and six times 1 let the first agent carry any proposal, 3, 2 and four times 1 a routine one only |
| `VotingAlone.OneOfThreeEqualsStops` | ccf/governance/constitution.js:2316-2353 | with reputations 2, 2, 2 one no stops a high-impact proposal and not a routine one |
| `VotingAlone.NoAgentCarriesAlone` | ccf/governance/constitution.js:2316-2353 | when the newcomer cap does not bite, no agent's yes is enough on its own |
| `VotingAlone.CapIsNotOfTheFinalTotal` | ccf/governance/constitution.js:2326-2335 | reputations 2, 1, 1 become weights 1, 0, 0: the cap is not a share of the final total |
| `VotingRuns.ReputationsStayWithinBounds` | ccf/governance/constitution.js:2181-2241 | over every run of registrations and settlements reputations stay between the configured bounds |
| `VotingRuns.EveryLedgerIsSound` | ccf/governance/constitution.js:2162-2241 | through every change of parameters too reputations stay between one and a million and percentages between 1 and 100 |
| `VotingRuns.RunsStayInOrderIff` | ccf/governance/constitution.js:2162-2241 | reputations are within the bounds in force at every step of a run exactly when every change of parameters in it leaves bounds they fit |
| `VotingRuns.SettlingRestoresVoters` | ccf/governance/constitution.js:2221-2241 | settling brings every voting agent back within the current bounds, where it stays as long as the parameters do |
| `VotingRuns.BoundsCanBeMissed` | ccf/governance/constitution.js:2162-2175 | a new minimum strands a newcomer below it, and a minimum given alone can exceed the maximum |
| `VotingLoops.CapRounds` | ccf/governance/constitution.js:2319-2325 | the in-place loop with its early exit computes the twelve specified rounds |
| `VotingLoops.ScaleNewcomers` | ccf/governance/constitution.js:2326-2334 | the in-place scaling computes the specified weights |
| `VotingLoops.CountVotes` | ccf/governance/constitution.js:2338-2342 | the tally of yes weight, no weight and yes ballots of agents |
| `VotingLoops.CountedWeights` | ccf/governance/constitution.js:2312-2336 | the weight table after both caps, and its total |
| `VotingLoops.ResolveProposal` | ccf/governance/constitution.js:2285-2353 | the loops of the vote rule compute the decision that VotingRules states case by case |
| `VotingLoops.SettleVotes` | ccf/governance/constitution.js:2221-2241 | the loop moves every voting agent one step, within bounds, and nobody else |
| `Ratchet.RunsAdvance` | ccf/governance/constitution.js:1999-2073 | over every run of proposals the authority's svn never decreases, the node-join svn never decreases nor passes it, and a governed appraisal policy never changes |
| `Ratchet.JoinPolicyNeverReplays` | ccf/governance/constitution.js:2053-2058 | after a node-join policy has been applied no run accepts one with the same or a lower svn |
| `Ratchet.JoinActionIsExact` | ccf/governance/constitution.js:2053-2068 | an applied node-join policy is above the previous one, signed under the authority's key with its own svn, at most one above the authority's mark, which becomes it, and the four tables then hold exactly what it lists, the last endorsement of a DID and feed winning |
| `Ratchet.AppraisalActionIsExact` | ccf/governance/constitution.js:2074-2094 | once there is an authority an appraisal policy needs its signature, whose svn is the authority's or the next and becomes it; it is stored for its zone under a key that is new or had the same text |
| `Ratchet.AuthorityActionIsExact` | ccf/governance/constitution.js:2017-2034 | an authority is accepted exactly if it is proper and does not lower the svn |
| `Ratchet.Constitution.RequireSignature` | ccf/governance/constitution.js:1999-2016 | an accepted signature verifies under the authority's key, its svn rises by at most one and never falls, the invariant is kept, nothing signed is rolled back and the same signature is accepted again without effect |
| `Ratchet.GroupEndorsements` | ccf/governance/constitution.js:2064-2066 | endorsements are grouped by DID and feed, the last one listed winning |
| `Ratchet.Constitution.ReplaceJoinTables` | ccf/governance/constitution.js:2059-2067 | the four join tables become those of the policy and nothing else changes |
| `Ratchet.Constitution.ApplyAction` | ccf/governance/constitution.js:1999-2095 | an accepted action moves the tables as specified and keeps the invariant |
| `JsonText.StringRoundTrip` | crates/adns-auth/src/canonical.rs:96-97 | reading an escaped string returns it |
| `JsonText.NumberRoundTrip` | crates/adns-auth/src/canonical.rs:30-35 | reading the digits of a safe integer returns it |
| `JsonText.KeyOrder` | crates/adns-auth/src/canonical.rs:108-109 | the order of property names is a strict total order, so sorting them is canonical; JsonOrder.NormalAscends spells it out |
| `JsonRoundTrip.ValueReadsBack` | crates/adns-auth/src/canonical.rs:9-62 | reading the text of a value, whatever may follow it, returns the value exactly when its nesting is allowed |
| `JsonProofs.CanonicalParsesBack` | crates/adns-auth/src/canonical.rs:67-128 | strict parsing of canonical text returns the same value with ordered properties exactly when the text fits 4 MiB and the nesting 127 |
| `JsonProofs.CanonicalIsInjective` | crates/adns-auth/src/canonical.rs:82-128 | canonical texts are equal exactly when the values are equal up to the order of properties |
| `JsonOrder.NormalAscends` | crates/adns-auth/src/canonical.rs:102-121 | at every level property names ascend: at the first difference of their UTF-16 code units the earlier has ended or has the smaller unit |
| `JsonOrder.UnitsReadBack` | crates/adns-auth/src/canonical.rs:108-109 | those code units read back, surrogate pairs included, are the name |
| `JsonOrder.EscapesAreMinimal` | crates/adns-auth/src/canonical.rs:96-97 | only the quotation mark, the backslash and control characters are escaped, by two characters where there is such a form, else by lower-case hexadecimal |
| `JsonOrder.CanonicalIsOrderedAndCompact` | crates/adns-auth/src/canonical.rs:82-128 | canonical text has no space outside strings and is the text of the same value with names so ordered, which strict parsing returns |
| `JsonProofs.ParsedIsCanonicalizable` | crates/adns-auth/src/canonical.rs:67-79 | what strict parsing accepts has no repeated property, only safe integers, bounded nesting, and canonical text |
| `JsonProofs.SignedMessageBindsEverything` | crates/adns-auth/src/lib.rs:186-202 | equal signed messages carry the same action, nonce, expiry and intent |
| `JsonLoops.Append` | crates/adns-auth/src/canonical.rs:83-125 | the recursive writer appends exactly the canonical text, ordered and compact as JsonOrder.CanonicalIsOrderedAndCompact states, or gives up on an unsupported number |
| `Contributions.AddKeepsValid` | crates/adns-server/src/state.rs:147-209 | adding keeps the usage equal to the true counts and bytes, the bounds and CNAME exclusivity |
| `Contributions.RemoveKeepsValid` | crates/adns-server/src/state.rs:229-273 | removing keeps the usage equal to the true counts and bytes, the bounds and CNAME exclusivity |
| `Contributions.AddThenRemoveRestores` | crates/adns-server/src/state.rs:147-273 | adding a fresh contributor's records and removing that contributor restores table, order and usage |
| `Contributions.RemoveNothing` | crates/adns-server/src/state.rs:222-228 | removing nobody changes neither table nor usage |
| `Contributions.EffectiveRecords` | crates/adns-server/src/state.rs:129-146 | every RRset comes out with one TTL, the least any source gave it, without repetitions and without losing a record |
| `ContributionLoops.SplitAll` | crates/adns-server/src/state.rs:229-273 | the scan with checked subtractions never fails and removes exactly the selected contributions |
| `ContributionLoops.FindClash` | crates/adns-server/src/state.rs:160-172 | the scan finds a clash exactly when a CNAME would share its owner with another type or target |
| `ContributionLoops.NormalizeRrsets` | crates/adns-server/src/state.rs:129-146 | the two loops compute the specified effective records |
| `ContributionLoops.ZoneRows.AddContribution` | crates/adns-server/src/state.rs:147-209 | the new rows as specified, or the specified refusal with rows unchanged |
| `ContributionLoops.ZoneRows.RemoveMatching` | crates/adns-server/src/state.rs:229-273 | no underflow error is ever returned and the result tells whether records were removed |
| `Anchors.AnchorKeyInjective` | crates/adns-server/src/anchors.rs:81-86 | encoded keys of different registrations, subjects or sequence numbers differ |
| `Anchors.HeadKeyInjective` | crates/adns-server/src/anchors.rs:84-86 | head keys of different logs differ |
| `Anchors.OtherLogKept` | crates/adns-server/src/anchors.rs:120-169 | an anchor leaves every other log as it was |
| `Anchors.AnchorAppends` | crates/adns-server/src/anchors.rs:120-169 | an accepted anchor changes no stored one, a new one holds the registration's grant and zone, the digest and the time and is above all earlier ones of its log, and the answer is what is stored under its number |
| `Anchors.LogsOnlyGrow` | crates/adns-server/src/anchors.rs:104-169 | over every run the logs stay valid (head greatest with its digest, count exact) and no stored anchor changes |
| `Anchors.HeadReadIsLatest` | crates/adns-server/src/anchors.rs:172-202 | a head read returns the greatest anchor of the log, with the head's digest, or finds the log empty |
| `Anchors.AnchorStore.Store` | crates/adns-server/src/anchors.rs:104-169 | the stored rows as specified, or the specified refusal with rows unchanged |
| `Registry.ActionsKeepValid` | crates/adns-server/src/service.rs:188-408 | every signed operation keeps the active index equal to the active registrations, its counter exact, challenges bounded, zone usage true and anchor logs valid |
| `Registry.RegisterKeepsValid` | crates/adns-server/src/service.rs:189-242 | a registration keeps all of that, with its index entry and records |
| `Registry.DeregisterKeepsValid` | crates/adns-server/src/service.rs:303-337 | a withdrawal, full or by port, keeps all of that |
| `Registry.ChallengeCreateKeepsValid` | crates/adns-server/src/service.rs:343-388 | a new challenge keeps all of that |
| `Registry.OperatorKeepsValid` | crates/adns-server/src/zone.rs:222-298 | an operator request keeps all of that |
| `ServiceProofs.RunsKeepValid` | crates/adns-server/src/service.rs:104-441 | in every reachable state the index is exact, usage true, attempts belong to nonce rows with their identity, nonces stay within 4096 and 64 per grant, and zones within 32 |
| `ServiceProofs.RetryChangesNothing` | crates/adns-server/src/service.rs:153-172 | once a request id has a result, the identical message gets the stored body, any other is refused, and no table changes |
| `ServiceProofs.RunsKeepResults` | crates/adns-server/src/service.rs:416-427 | over every run a result row, once written, never changes |
| `ServiceProofs.AtMostOnce` | crates/adns-server/src/service.rs:153-434 | over every run each request id takes effect at most once, and not at all if its result was already there |
| `ServiceProofs.NoncesWorkOnce` | crates/adns-server/src/service.rs:173-178 | over every run the successes under a nonce key never exceed the rows present or issued under it |
| `ServiceProofs.RejectionsAreConfined` | crates/adns-server/src/attempts.rs:35-126 | a rejected request changes at most the time watermark and the attempt row of its own nonce, whose identity it carries |
| `ServiceProofs.TimeNeverDecreases` | crates/adns-ccf/src/lib.rs:38-63 | over every run, epoch changes included, the time watermark and the epoch never decrease |
| `ServiceProofs.MaintenanceIsIdempotent` | crates/adns-server/src/service.rs:448-537 | a second pass at the same time commits, changes no table and signs no zone |
| `ServiceProofs.MaintenanceIsExact` | crates/adns-server/src/service.rs:456-475 | a pass changes exactly the active registrations that lapsed and leaves index and counter exact |
| `Authority.PerformsIff` | crates/adns-server/src/service.rs:148-187 | exactly when a signed request is performed: clock, route and signature, a new id, a stored nonce issued five minutes before its end for this very request, a grant that authorizes it, and the action's success |
| `Authority.PerformedStep` | crates/adns-server/src/service.rs:409-441 | then its nonce and attempt are gone, its result is stored under its id with its digest, and the tables are those the action left |
| `Authority.RejectionRecordedIff` | crates/adns-server/src/attempts.rs:35-126 | exactly which rejections are recorded, with their reason and time |
| `Authority.NonceIssuedIff` | crates/adns-server/src/service.rs:115-147 | exactly when a nonce is issued: to an authorized action, below 4096 live nonces and 64 of the grant, if the one drawn is new |
| `Authority.NonceIssuedIs` | crates/adns-server/src/service.rs:115-147 | it is for this action, from now, for five minutes, and joins the live ones |
| `Authority.OnlyTheOwnerActs` | crates/adns-auth/src/grants.rs:255-309 | renewals, withdrawals and anchors succeed only for the grant, zone and signer of the registration named, deletions for those of the challenge |
| `Authority.OnlyLiveRegistrationsAct` | crates/adns-server/src/service.rs:62-90 | renewals need an active registration within its lease and scope, anchors and challenges one whose lease, appraisal, grant and policy stand, challenges its zone and host |
| `Authority.RegistrationChangesOnlyBy` | crates/adns-server/src/service.rs:104-537 | a step changes a registration only by a verified renewal or withdrawal of its own grant, zone and signer, or by maintenance that finds its lease, appraisal, grant or policy failed |
| `Authority.RunsChangeOnlyBy` | crates/adns-server/src/service.rs:104-537 | so over every run, and its holder, host, profile and admission never change, nor does it become active again |
| `Publication.AdditionSucceedsIff` | crates/adns-server/src/state.rs:147-209 | exactly when a record is accepted: zone, class and type, agreement with aliases at its owner, and room for it |
| `Publication.RegistrationIsPublished` | crates/adns-server/src/service.rs:189-242 | the zone then holds what it held and exactly the registration's records, their TTL cut to the lease |
| `Publication.WithdrawalIsExact` | crates/adns-server/src/service.rs:303-337 | withdrawal takes exactly the registration's records, or those of the ports given, and its ports or its standing |
| `Publication.ChallengeIsPublished` | crates/adns-server/src/service.rs:343-388 | a challenge ends with the least of its lifetime, grant and registration, and exactly its record is added with a TTL cut to that |
| `Publication.ChallengeDeletionIsExact` | crates/adns-server/src/service.rs:389-403 | deletion takes exactly the challenge and its records |
| `Publication.OperatorChangeIsExact` | crates/adns-server/src/zone.rs:232-297 | after an operator's edits a record is there exactly if it was or an edit put it, and no later edit erased it; the serial was the expected one |
| `Publication.ChangedZoneIsSigned` | crates/adns-server/src/service.rs:409-441 | a request signs its zone again whenever its records changed, touches no other zone, and answers with the zone's serial |
| `Publication.MaintenanceSettles` | crates/adns-server/src/service.rs:448-557 | maintenance withdraws what lost its authority, expires what only ran out, and keeps exactly the challenges that stand and the live nonces |
| `Publication.MaintenanceRemovesExactly` | crates/adns-server/src/service.rs:510-514 | a zone loses exactly the records of registrations and challenges that lost their standing |
| `Publication.MaintainedZoneIsSigned` | crates/adns-server/src/service.rs:516-528 | a zone is signed again exactly when its records changed or its signatures are within the refresh margin |
| `Ownership.AlwaysOwnedIff` | crates/adns-server/src/service.rs:188-408 | over every run, at every step every contributed record belongs to an active registration or a stored challenge of its own zone, or to an operator, exactly unless a performed request takes a challenge id under which another zone holds records |
| `Ownership.EveryRecordHasAnOwner` | crates/adns-server/src/service.rs:188-408 | so it is in every run whose authentic requests for challenges in different zones get different ids |
| `Ownership.ActionsKeepOwned` | crates/adns-server/src/service.rs:188-408 | a signed operation keeps every record of every zone owned exactly unless it takes a challenge id under which another zone holds records |
| `Ownership.ClashLeavesOrphan` | crates/adns-server/src/service.rs:343-388 | two accepted challenges of different zones whose digests agree in 128 bits leave the first one's record without an owner |
| `Ownership.MaintenanceLeavesOnlyAuthorized` | crates/adns-server/src/service.rs:448-537 | right after maintenance the owner of every record is in force: lease, appraisal, grant and policy current, challenge alive |
| `Ownership.RegistrationIsBounded` | crates/adns-server/src/service.rs:189-242 | a new lease starts now and ends with the least of request, grant, policy and appraisal, under a fresh id bound to signer, grant, zone, host and profile |
| `Ownership.RenewalIsBounded` | crates/adns-server/src/service.rs:243-302 | a renewed lease of the caller's own grant, zone and signer is measured from admission, ends with the least of request, grant, policy and appraisal, and nothing but lease and appraisal changes |
| `ServiceLoops.ExpireRegistrations` | crates/adns-server/src/service.rs:455-475 | the index scan expires exactly the lapsed registrations and notes their zones |
| `ServiceLoops.ExpireChallenges` | crates/adns-server/src/service.rs:476-511 | the challenge scan removes exactly the dead challenges and notes their zones |
| `ServiceLoops.CollectLiveNonces` | crates/adns-server/src/service.rs:540-557 | the scan keeps exactly the live nonces and the attempts that belong to them |
| `ServiceLoops.CleanZones` | crates/adns-server/src/service.rs:510-514 | every zone loses exactly the records of its lapsed contributors, and those that lost some are marked |
| `ServiceLoops.MarkDue` | crates/adns-server/src/service.rs:516-525 | zones whose signatures are due are marked |
| `ServiceLoops.SignDirty` | crates/adns-server/src/service.rs:526-528 | every dirty zone is signed again, or the pass fails |
| `Server.Perform` | crates/adns-server/src/service.rs:188-408 | the imperative operation arms compute the tables that Authority and Publication state operation by operation |
| `Server.ApplyEdits` | crates/adns-server/src/zone.rs:232-297 | the operator mutations in turn, stopping at the first refusal |
| `Server.IssueNonce` | crates/adns-server/src/service.rs:115-147 | a nonce is issued as specified and the capacity error of the scan is never returned |
| `Server.SendRequest` | crates/adns-server/src/service.rs:148-441 | an accepted request leaves valid tables with every earlier result unchanged and its own stored as answered, so that sending it again at any time gives the same answer and changes nothing |
| `Server.Mutate` | crates/adns-server/src/service.rs:104-441 | an accepted request leaves valid tables, unchanged results, governance and epoch, and a time watermark between the old one and now; errors are the specified ones |
| `Server.RunPass` | crates/adns-server/src/service.rs:448-530 | the scans together compute the specified tables and dirty zones |
| `Server.Server.MutateObserved` | crates/adns-server/src/attempts.rs:35-126 | staged writes are kept on success only; an authentic rejection leaves the watermark and its attempt row |
| `Server.Server.Maintenance` | crates/adns-server/src/service.rs:448-537 | the pass commits exactly when time has not moved back and every dirty zone can be signed, with the specified tables; its capacity errors are never returned and otherwise nothing changes |

## Left out

- Cryptography (ECDSA, SHA-1 and SHA-256, TSIG, attestation evidence): functions given as parameters.
- The RDATA wire codec and name compression: `Env.wire` stands for the codec; records whose content is only copied are one constructor.
- UTF-8: JSON text is a sequence of Unicode scalars, and only its UTF-8 length is modelled, for the byte limit.
- Floating point: JavaScript divides doubles in the vote rule; the sums stay far below 2^53 and quotients of integers by 100 round to the same floor, so integer division is used.
- KSK rollover, `initialize_zone` beyond its bounds, and the content of `mail_contributions` and `attested_contributions`: the records of a registration are a parameter.
- Operator record parsing: an operator request is a list of erasures, additions and malformed entries.
- The text checks on the list of high-impact actions, `open_join`, and the notes of governors: they decide no weight.
- `proposalIdForVotes`: the verdicts recorded against a proposal are a parameter, so the lookup by proposal text is not modelled.
- DoH, zone transfer, telemetry, receipts, zone-file text and the JSON bodies of answers: presentation and transport.
- CCF consensus: a committed transaction is one atomic step.
- RehydrationProofs.RehydrationInvertsSigning: assumes that hash values are octet strings of the digest's length, as SHA-1 gives.
- SignatureProofs.ExpandedAnswerVerifies: verification means that the signature was made over the received records' octets by a key of the zone; the inversion of signing by verification is not modelled.
- Ownership.EveryRecordHasAnOwner: assumes of the authentic requests that challenges asked for in different zones do not agree in 128 bits of their digests; the source does not check it.
- Ratchet.GroupEndorsements: endorsements whose DID names an inherited member of JavaScript objects are grouped like any other.
- Scheduler.Requested: zone and key names are compared as text, which is their canonical form once validated.
- Ratchet.Apply: a change of the constitution itself is outside the runs considered.
