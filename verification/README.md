# Verification of the policy and freshness core

This Dafny project models the parts of the system that decide who may call what, and who is told what:

- the admin-signed **policy**: its rules, its flattening into one ordered item list and back, its signing over
  the version before, and a caller's cut-down view of it;
- the **freshness protocol**: directories' short-lived words for the newest head, the bounded set a node keeps
  of them, and the proof a host shows before a caller says anything;
- the **admin's edits**: every command's change, the one path that signs and stores it, commands run in
  sequence and interleaved, and the publish that follows;
- the caller's **mailbox** and its printed times, the **framing** of the session and inbox streams, and the
  **matcher grammar**.

`dafny verify dfyconfig.toml` checks the whole project.

## How it is modelled

Signatures are ideal: a signature names the key that made it and the exact message it covers, so it cannot be
transferred or altered. Which signatures exist is part of a run's state: `Provenance` says the root's are only
those its signings made, `Protocol` lets an adversary show any signature ever made and make any with keys that
are not the root's or an honest directory's. Hashes are ideal: a hash stands for the value it was taken of.
Times and versions are unbounded integers; `Freshness.SaturationDecidesAlike` shows that the saturating 64-bit
tests decide alike. Canonical JSON and UTF-8 are codecs of which only their law is used. Strings are sequences
of characters, compared character by character and trimmed of Unicode white space.

What the program changes in place is a class here (`FreshSet`, `Draft`, `Keystore`, `ReachedFile`, `Mailbox`),
and its loops are methods with invariants; each is proved equal to a function on values, and the laws are
lemmas about that function. What only computes is a function.

| file | models |
|---|---|
| `Prelude.dfy`, `Sorting.dfy`, `Text.dfy` | shared vocabulary: results, list helpers, sorted walks, string helpers |
| `Terms.dfy`, `Heads.dfy` | heads, entries, words, items; signing and checking a head or an entry |
| `ItemOrder.dfy`, `Policies.dfy`, `RoundTrip.dfy`, `Provenance.dfy` | the policy, its item list, signing, verifying, provenance |
| `Roles.dfy`, `Gates.dfy`, `Views.dfy`, `Acks.dfy` | matching, the call and admission gates, views, the host's ack |
| `Freshness.dfy`, `Proofs.dfy`, `Protocol.dfy` | words, the set of them, the host's proof, and the protocol's runs |
| `Edits.dfy`, `Admin.dfy`, `Adoption.dfy` | admin edits, the edit path, and what a store takes of what it is offered |
| `Histories.dfy`, `AdminRuns.dfy`, `Commands.dfy` | compare-and-swap, interleaved runs of commands, what each command needs and does |
| `AdminLaws.dfy`, `Interleavings.dfy`, `EditRuns.dfy`, `Removal.dfy` | what runs keep, break, undo and leave alone, and that removal holds |
| `Propagate.dfy` | publishing, and when a command fails |
| `Mailboxes.dfy`, `MailboxLaws.dfy`, `Calendar.dfy`, `Utc.dfy` | the mailbox, and times as text |
| `Framing.dfy`, `Frames.dfy`, `InboxFrames.dfy` | length-prefixed streams and the two frame vocabularies |
| `Matchers.dfy`, `MatcherLaws.dfy` | the matcher grammar and its laws |

## Where a promise does not hold

Two rules that the edit path keeps for commands run one after another fail when commands interleave, because a
command checks one read of the stored policy and changes a later one (wires/admin/service.rs:243 and 295,
wires/admin/remove.rs:123): a person ban can end up naming an issuer no longer trusted, and the last directory
can be dropped. `Interleavings.BothRulesBreak` gives runs of the interleaved system from an empty keystore that
break each; `Interleavings.BanRuleCanBreak` and `Interleavings.DirectoryRuleCanBreak` continue any run so, from
every state where the quick command can go through. `AdminLaws.CommitKeepsTrustedIff` and
`AdminLaws.CommitKeepsDirectoryIff` say exactly which commits break each rule, by the edit, what its guard saw
and the policy it changes; `AdminLaws.SequentialRunKeeps` that none does without interleaving.

A matcher does not always come back from its printed form: a comma in a bare email (`a,b@x`,
`MatcherLaws.CommaInEmailIsLost`) or in a default issuer (`MatcherLaws.CommaInDefaultIsLost`) splits it.
`MatcherLaws.KeyValueRoundTripIff` and `MatcherLaws.BareEmailRoundTripIff` say exactly which accepted text
comes back, `MatcherLaws.RoundTripIff` exactly which matchers do.

The freshness window has one exception the code states, a head whose one directory is the dialed host
(`Protocol.OneMachineNetwork`), and no bound shorter than the one proved holds (`Protocol.WindowIsTight`).

## Model

| member | source | states |
|---|---|---|
| `Heads.VerifiesIffSigned` | library/services/head.rs:141-189 | a head verifies under a root exactly when it is, field for field and signature included, what signing its content with that root's key makes in the current format; a foreign fabric, an unsupported scheme or format, a wrong signature or a directory listed twice all fail |
| `Heads.NewerOrders` | library/services/head.rs:215-217 | heads of one network are newer by version, strictly, and heads of different networks are never newer than one another |
| `Heads.EntryVerifiesIffSigned` | library/services/entry.rs:75-117 | a service entry verifies on its own exactly when it is what the root makes of its version, name and body |
| `Terms.FindRepeat` | library/services/head.rs:156-165 | the scan with a `seen` set reports a repeat exactly when some two directories (or hosts) are equal |
| `ItemOrder.KeyOrder` | library/services/item.rs:46-61 | the key order (kind first, then key) is a strict total order |
| `ItemOrder.KindsInOrder` | library/services/item.rs:46-61 | roles come before services, then removed nodes, removed people, issuers and the settings, each kind by its own key |
| `ItemOrder.KindsConcatenate` | library/services/signed_policy.rs:209-246 | walking the kinds one after another, each map in its own order, visits the keys in the one global key order |
| `ItemOrder.InOrderAscends` | library/services/signed_policy.rs:597-605 | checking neighbours is enough: an accepted list ascends throughout and no key occurs twice |
| `Policies.Validate` | library/services/signed_policy.rs:138-207 | the validation scan accepts exactly the policies that keep every rule: directories once and unbanned, people and issuers well formed, roles naming trusted issuers, services naming defined roles and unbanned hosts once, a beat and a word life that fit |
| `Policies.SignsExactly` | library/services/signed_policy.rs:138-207 | a policy signs exactly when it is of the root's network and keeps every rule, each written out |
| `Policies.Items` | library/services/signed_policy.rs:209-246 | filling the item list kind by kind gives each held key's item in key order, keeping a previous entry where it fits, and refuses another root |
| `Policies.ServiceItems` | library/services/signed_policy.rs:215-236 | each service gets the previous policy's entry if that is for the same fabric, name and body and no newer, else a newly signed one at this version |
| `Policies.FlattenedByKind` | library/services/signed_policy.rs:209-246 | the flattened list is the roles, services, node bans, person bans, issuers and the one settings item, in that order |
| `Policies.FromItems` | library/services/signed_policy.rs:248-285 | the rebuilding loop refuses a list out of order or without settings and otherwise gives the policy that the items represent under the head's fields |
| `RoundTrip.RebuildUndoesFlatten` | library/services/signed_policy.rs:209-285 | rebuilding from a policy's own head and flattened items gives that policy back, for every policy and whatever was signed before |
| `RoundTrip.FlattenUndoesRebuild` | library/services/signed_policy.rs:209-285 | for any list that rebuilds, with entries of the head's fabric and version or older, flattening the rebuilt policy over that list gives the very same list |
| `RoundTrip.OrderedIsSixKinds` | library/services/signed_policy.rs:597-605 | a strictly ordered list is exactly the concatenation of its six kinds |
| `RoundTrip.SettingsLast` | library/services/signed_policy.rs:252-285 | an ordered list holds at most one settings item, and it is the last |
| `RoundTrip.RebuiltRepresents` | library/services/signed_policy.rs:252-285 | a rebuilt policy holds exactly what the items say, kind by kind, under the head's fields |
| `RoundTrip.RepresentsUnique` | library/services/signed_policy.rs:252-285 | two policies that agree on head fields and settings and represent the same items are equal |
| `RoundTrip.SignedVerifies` | library/services/signed_policy.rs:324-346 | what signing makes, alone or over a policy whose entries verify, verifies and types back to the policy that was signed |
| `RoundTrip.VerifiedParts` | library/services/signed_policy.rs:460-489 | what a verified policy guarantees: a root-signed head of the current format, valid typed items with that hash, the settings' word life in the head, and every entry the root's and no newer than the head |
| `RoundTrip.VerifiesIffResigns` | library/services/signed_policy.rs:460-489 | a signed policy verifies exactly when re-signing what it types to, over itself, reproduces it bit for bit |
| `Provenance.ChainExtends` | library/services/signed_policy.rs:320-346 | any valid policy of the network with a higher version can be signed over a chain's last one and extends the chain |
| `Provenance.ChainOf` | library/services/signed_policy.rs:320-346 | every sequence of valid policies of one network with rising versions can be signed one over the other from its first to its last |
| `Provenance.ChainVerifies` | library/services/signed_policy.rs:320-346 | every policy of a chain of signings over one another, versions rising, verifies and types back |
| `Provenance.EntryProvenance` | library/services/signed_policy.rs:209-246 | an entry carries the first version of the latest unbroken run in which its service had its present body, and is the same signed entry all through that run; removal and re-adding start a new run |
| `Provenance.EntryKeptIff` | library/services/signed_policy.rs:209-246 | a later policy of a chain carries an earlier one's entry for a service, version and signature included, exactly when the service had the same body in every policy in between |
| `Provenance.NoForging` | library/services/signed_policy.rs:460-489 | under ideal signatures and hashes, every policy that verifies is, head and items, one the root produced |
| `Provenance.VerifiesIffProduced` | library/services/signed_policy.rs:460-489 | over signings whose earlier policies held only verifying entries, the policies that verify under an unforged head are exactly the ones those signings produced |
| `Provenance.NoMixing` | library/services/head.rs:85-90 | two verified policies under one head have the same items |
| `Provenance.NoForgedEntry` | library/services/entry.rs:106-117 | an entry that verifies alone was, at its own version, a service of a policy the root signed |
| `Adoption.ProtocolAdoptsAlike` | wires/directory/node.rs:337-350 | the protocol's directories move on by the store's own rule: a verified policy is taken by the store exactly when its head may be by the directory |
| `Provenance.NoForgedHead` | library/services/head.rs:177-189 | a head that verifies, shown without its items, is that of a policy the root signed at that very version |
| `Roles.AuthorizeIff` | library/services/access.rs:126-153 | a call is allowed exactly when caller and person are not banned and some matcher of some role the service allows matches a principal with a verified email; the role named is the first listed that admits |
| `Roles.RefusalSaysWhy` | library/services/access.rs:126-153 | each refusal exactly when it applies: a removed caller or person learns only that; then an unknown service, a service that allows nobody, and not being in a role, which alone names the service's roles, none of which admits, and who asked, by email or else subject |
| `Roles.AdmittedIff` | library/network/admission.rs:74-88 | admission holds exactly for an unbanned node and person with a verified email that some role's matcher matches; of the three errors each exactly when it applies, banned first, then no verified email, then no role |
| `Roles.AuthorizedIsAdmitted` | library/network/admission.rs:74-88 | whoever may call some service passes admission |
| `Roles.CaseDoesNotMatter` | library/services/role.rs:236-252 | two principals that differ only in the case of letters of their email and organisation are admitted alike and may call alike, under every policy, and are let in by the same role |
| `Gates.BareMatcherAdmits` | library/services/role.rs:236-252 | a matcher of an issuer alone admits exactly that issuer's principals with a verified email, unless the node or the person was removed |
| `Gates.KeysNarrow` | library/services/role.rs:236-252 | adding a key to a matcher lets in exactly those it let in before who hold it: the group exactly, the organisation and the address in any letter case, the domain of the address in any case |
| `Gates.OneMatcherDecides` | library/services/role.rs:236-252 | a role lets in exactly those whom one of its matchers lets in alone |
| `Gates.OneRoleDecides` | library/services/access.rs:126-153 | a call is allowed exactly when one of the defined roles the service allows would do alone |
| `Gates.OneRoleAdmits` | library/network/admission.rs:74-88 | admission is granted exactly when one defined role would do alone |
| `Gates.OtherIssuersAdmitNobody` | library/services/role.rs:236-252 | a role whose matchers all name other issuers lets nobody in, at either gate |
| `Text.TrimCuts` | wires/admin/service.rs:480-486 | trimming takes spaces, and nothing else, off both ends, and stops at the first other character |
| `Text.SameButForCase` | library/services/role.rs:236-252 | two texts are equal ignoring case exactly when they differ at most in the case of the letters A to Z |
| `Views.ViewAgrees` | library/services/signed_policy.rs:547-592 | for every verified policy, node, principal and service, the view holds that service's entry exactly when `authorize` on the rebuilt policy succeeds |
| `Views.QueryIsMatching` | library/services/view.rs:98-106 | cutting the view with a query is cutting without one and then reading by that query |
| `Views.QueryFinds` | library/services/view.rs:98-106 | a query finds, of the entries the caller may see, those with it in their name, or in any case in their description |
| `Views.ViewVerifies` | library/services/view.rs:77-90 | every view of a verified policy verifies: names strictly in order, each entry the root's and no newer than the head |
| `Views.ViewVerifiesIff` | library/services/view.rs:77-90 | a caller takes exactly the views whose head is the root's, whose names ascend throughout, and each of whose entries is, signature and all, the root's and no newer than the head |
| `Views.ViewNotForged` | library/services/view.rs:77-90 | under ideal signatures a view a caller takes carries the head of a policy the root signed, and every entry in it was a service of one the root signed, at its own version |
| `Views.BansAgree` | library/services/signed_policy.rs:547-563 | the bans read off the item list are the rebuilt policy's bans of that node and person |
| `Acks.AckDecides` | library/calls/session.rs:169-204 | an ack with a verified policy's own head and the called service's entry lets the call go on exactly when that policy is no newer than the caller's view or `assigns` holds; the ban clause of `assigns` follows from validation; to a caller as new it carries neither head nor entry |
| `Acks.AckAnswers` | library/calls/session.rs:169-204 | for every ack, honest or not: a newer one lets the call go on exactly when its head is, signature and all, the root's at its very version and its entry the root's for that service, no newer and listing the host; it says no exactly when the head is the root's and the entry is missing or the root's without the host; any other is an error |
| `Acks.AckNotForged` | library/calls/session.rs:169-204 | a newer ack that gets an answer, yes or no, carries the head of a policy the root signed at exactly its version, and one that lets the call go on an entry the root signed, no newer, that lists that very host |
| `Freshness.FreshVerifiesIffSigned` | library/services/fresh.rs:88-164 | a word verifies for a head exactly when it is what a listed directory's key signs for that head, within the head's word life |
| `Freshness.SaturationDecidesAlike` | library/services/fresh.rs:186-189 | on 64-bit times the code's saturating tests and the unbounded ones here decide alike |
| `Freshness.InsertSays` | library/services/fresh.rs:294-314 | the answer is whether the word was kept: if not nothing changed, if so it is held and ranked above its signer's earlier one |
| `Freshness.InsertKeepsBest` | library/services/fresh.rs:294-314 | one more offer, replacing, pushing, refused or displacing, leaves a best selection of all that was offered |
| `Freshness.AnyOffersKeepBest` | library/services/fresh.rs:294-314 | after any sequence of offers at one time the set holds one word per signer, each the best its signer ever offered, and leaves a signer out only when full of words that rank at least as high as all of that signer's |
| `Freshness.NewestIsHeld` | library/services/fresh.rs:294-309 | said of versions and times alone, after any offers at one time: a signer's word held is of the highest version it offered, among those current if any was, and among those, or if none is current among all, the one that lasts longest |
| `Freshness.LeftOutIsOlder` | library/services/fresh.rs:294-309 | and a signer is left out only by a full set, none of whose words is of a lower version than any it offered, nor ranks below one of the same version by being current and then by its end |
| `Freshness.CurrentGoesOnlyForBetter` | library/services/fresh.rs:294-314 | over any sequence of offers at one time, a current word once held is displaced or replaced only when some offer was for a newer head, or for the same one, current, and lasting longer |
| `Freshness.StaleWordsPutOutNothing` | library/services/fresh.rs:294-295 | offers that are for older heads, or for the same one and not current, such as words from a clock that runs ahead, leave every current word held |
| `Freshness.FreshSet.Insert` | library/services/fresh.rs:294-314 | the in-place insert, with its searches for the signer's word and for the worst one, does exactly the specified step |
| `Freshness.ShownAre` | library/services/fresh.rs:327-336 | what a host shows is, in the order held and capped, exactly the words that a listed directory signed for this very head and that are current |
| `Freshness.FromUnverified` | library/services/fresh.rs:350-359 | the loop over untrusted words keeps those that verify for the head, each ranked at its own signing time |
| `Freshness.NextWordRead` | library/services/fresh.rs:350-359 | each word read is looked at when it was signed: one of a signer already held takes its place unless the held one was current then and lasts as long; one that does not verify does nothing |
| `Freshness.OwnWordsReadBack` | library/services/fresh.rs:350-359 | reading back a set's own words gives, in order, exactly those that verify for the head |
| `Proofs.CheckMeans` | library/calls/proof.rs:86-114 | what a passing check guarantees: the root's unexpired head, the caller's own or a newer one, and a current word for exactly that head signed by a listed directory other than the host unless it is the only one |
| `Proofs.CheckPasses` | library/calls/proof.rs:86-114 | the check passes exactly when the frame is small enough, the head verifies, is unexpired and is the held one or newer, and some word vouches; the word is the first that does |
| `Proofs.RefusalIs` | library/calls/proof.rs:86-132 | why a proof under a genuine head is refused: too many words, an expired, older or other head, no word, or else what is wrong with its first word |
| `Proofs.WordRefusal` | library/services/fresh.rs:211-221 | why a word does not vouch: it lapsed, or it is the host's own where other directories are listed, exactly when it is otherwise the directory's for this head |
| `Proofs.FindVouching` | library/calls/proof.rs:119-132 | the search loop returns the first vouching word, else the first candidate's reason, else that there was none |
| `Proofs.ShownProofIsAsStrong` | library/services/fresh.rs:318-336 | a proof built from a set passes exactly when the caller would take the head and the set itself holds a vouching word, by that same word; the cap drops nothing and never makes a bad frame |
| `Proofs.ReloadedSetShowsTheSame` | library/services/fresh.rs:327-359 | a set written out and read back for a head shows the same words for it |
| `Protocol.HeldHeadsAreTheRoots` | wires/directory/node.rs:337-350 | in every run an honest directory holds only heads that are, signature and all, the root's, and that the root signed in that run |
| `Protocol.LaterWordsAreNewer` | wires/directory/node.rs:284-338 | in every run, once an honest directory holds a version it never again vouches for an older one |
| `Protocol.WordsAreWellTimed` | wires/directory/node.rs:310-338 | in every run an honest directory's word is signed at most the clocks' lead ahead, before its head expires, and lasts exactly its head's word life |
| `Protocol.NoWordVouches` | library/services/fresh.rs:211-221 | after the window no word anyone can show, from a host or kept by the caller, vouches for an older head to a caller dialing the removed host |
| `Protocol.RemovedHostWindow` | library/calls/proof.rs:86-132 | over every run: if by time T every directory other than the host that an older head lists is honest and holds the new version, then after T plus the clocks' lead plus the longest word life no proof the host can assemble for an older head passes, except a head whose one directory is the host |
| `Protocol.RemovedHostWindowRising` | library/calls/proof.rs:86-132 | the same, looking only at the state at T, when the root numbers its heads upwards |
| `Protocol.WindowIsTight` | library/services/fresh.rs:186-221 | for every clock lead and word life there is a run in which an older head still passes at the window's very last second |
| `Protocol.OneMachineNetwork` | library/services/fresh.rs:211-221 | the exception is real: a host that is a head's one directory can always vouch for itself |
| `Protocol.FreshBeatPasses` | wires/directory/node.rs:284-327 | a host showing an honest directory's fresh word for a head the caller would take passes for as long as the word is good |
| `Edits.Draft.Add` | wires/admin/service.rs:319-334 | adding refuses a taken name, then a removed host, and else registers the service from an empty one |
| `Edits.Draft.Set` | wires/admin/service.rs:337-347 | setting refuses a removed host, then an unknown name, and else changes only the given fields |
| `Edits.Draft.Ban` | wires/admin/remove.rs:140-149 | banning a node refuses a repeat, bans it, and drops it from every host list and from the directories, keeping their order |
| `Edits.Draft.Distrust` | wires/admin/service.rs:402-415 | an issuer is dropped only if it is trusted and no person ban names it |
| `Edits.Draft.List` | wires/admin/service.rs:440-451 | a directory is listed last, unless it was removed or is listed |
| `Edits.Draft.Unlist` | wires/admin/service.rs:454-463 | a directory is dropped, and a missing one noticed by the unchanged length |
| `Edits.Draft.Apply` | wires/admin/service.rs:319-463 | every command's in-place change is exactly the specified change of the policy value, with its refusals |
| `Admin.Keystore.AdoptIfNewer` | wires/policy/store.rs:84-118 | the swap stores a candidate exactly when it verifies, is unexpired and is strictly newer than the verified stored copy; otherwise nothing changes |
| `Adoption.AdoptsIff` | wires/policy/store.rs:84-118 | over a stored policy that verifies, or none, a candidate is taken exactly when all its entries verify, it is what signing some policy with the root's key makes, it is not past its expiry, and its version is strictly higher |
| `Adoption.RefusedIff` | wires/policy/store.rs:90-95 | offering is an error exactly when the candidate is not the root's or is past its expiry; a genuine one that is no newer is just not taken |
| `Adoption.BrokenStoreTakesNothing` | wires/policy/store.rs:69-82 | over a stored policy that does not verify nothing is taken |
| `Adoption.OffersKeep` | wires/policy/store.rs:84-118 | over every run of offers, whoever serves them: what is stored verifies, is what was there at the start or one of the genuine offers made in time, never goes back a version, and no genuine offer made in time was of a higher one |
| `Adoption.OffersAreTheRoots` | wires/policy/fetch.rs:433-465 | so under ideal signatures an empty store, however it is fed, only ever holds a policy the root signed, head and items |
| `Admin.Keystore.Candidate` | wires/admin/service.rs:289-311 | drafting, stamping (version plus one, signed now, expiry never earlier) and signing over the stored policy |
| `Admin.Keystore.Run` | wires/admin/service.rs:237-256 | a whole command leaves stored, and returns, exactly what the specification of its reads, edit and swap says |
| `Admin.NextSignedIs` | wires/admin/service.rs:289-316 | the next policy verifies, is valid, and types to the edit's change of the stored one with version plus one and the later expiry; it keeps a directory where one must stay |
| `Histories.VersionsCount` | wires/policy/store.rs:84-118 | in every chain of commits each raising the version by one, the version stored is the number of commits, so one version names one policy |
| `Histories.SwapExtends` | library/services/head.rs:215-217 | whatever rule computes candidates, a swap to a strictly higher version of a candidate computed over any policy that was ever stored found that very policy stored, and extends the chain |
| `AdminRuns.NoLostUpdate` | wires/admin/service.rs:289-316 | over every interleaving of commands, each read and each swap a step of its own, the stored policies are one chain in which every one was computed from exactly the one it replaced; the version counts them, so one version names one policy |
| `AdminRuns.SwapsItsBase` | wires/policy/store.rs:84-118 | in every reachable state, a command whose swap goes through finds stored exactly the policy it read |
| `AdminRuns.StepKeepsInvariant` | wires/policy/store.rs:84-118 | each step of any command keeps the chain and every pending candidate's origin |
| `AdminRuns.CommitIs` | wires/admin/service.rs:289-316 | each commit changes the policy by its edit and its stamps and by nothing else |
| `AdminRuns.LifetimeNeverShortens` | wires/admin/service.rs:303-306 | along any history the expiry never gets earlier and covers the lifetime asked for |
| `Commands.ExpiryIsTheLongestAsked` | wires/admin/service.rs:303-306 | after any commits the expiry is the longest any of them asked for |
| `AdminRuns.HistoryIsAChain` | library/services/signed_policy.rs:320-346 | the committed policies are a chain of re-signings, so entry provenance holds of them |
| `EditRuns.PartStays` | wires/admin/service.rs:319-463 | over any run of commits, however interleaved, a part of the policy that none of them is about is as it was; banning a node reaches into hosts and directories, every other edit keeps to its part |
| `EditRuns.TakenBackOverRun` | wires/admin/service.rs:319-463 | adding a service, defining a role, trusting an issuer, listing a directory, removing a person or node or changing the settings, and taking that back any number of commits later, none of them about the same part, leaves the part exactly as before |
| `EditRuns.EntryStays` | library/services/signed_policy.rs:215-236 | over any run of commits that leave a service as it is, by naming others, setting it to what it is or removing nodes that do not host it, every later policy carries the very same signed entry for it |
| `EditRuns.SettingAgainSignsNothing` | wires/admin/service.rs:210-222 | setting a service again to what it was just set to, whatever ran in between that leaves it, keeps its signed entry |
| `AdminLaws.RanIs` | wires/admin/service.rs:237-256 | a refused command stores nothing; a successful one stores exactly what it returns |
| `Commands.CommandSucceedsIff` | wires/admin/service.rs:237-316 | over any stored policy that verifies, or none, exactly when a command succeeds: something is stored, or it is `init`; it does not remove the admin's own node, empty a role or change nothing; a person removed is of a trusted issuer; the edit is not refused; and the policy made is valid and still lists a directory if one was listed |
| `Commands.EditRefusedIff` | wires/admin/service.rs:319-463 | which edits of which policies are refused, and which fault is named of two |
| `Commands.GivenFieldsLand` | wires/admin/service.rs:210-222 | after a commit that adds or sets a service, each field the admin gave is in the policy, every other keeps its value, and no other service moves |
| `Commands.DefinitionsLand` | wires/admin/service.rs:360-415 | what a commit defines is defined, what it takes out is gone, and nothing else of that kind moves |
| `Commands.DirectoriesKeepOrder` | wires/admin/service.rs:440-463 | a directory is listed last, and one dropped or removed is cut out of the list with the others left in order |
| `Commands.HostsKeepOrder` | wires/admin/remove.rs:140-149 | removing a node cuts it out of every host list, the others left in order, and changes nothing else of any service |
| `Commands.RoleTakesEffect` | wires/admin/service.rs:360-374 | until some commit is about roles again, a service that allows only the role set lets in exactly those one of its matchers lets in |
| `Commands.RunsAreChecked` | wires/admin/remove.rs:138-140 | however commands interleave, none committed removes the admin's own node, leaves a role without matchers or changes no setting, and the first is `init`'s |
| `Commands.CommitsWereRead` | wires/admin/service.rs:243-255 | however commands interleave, each commit's checks passed on, and its guard read, a policy stored at some point before it |
| `Commands.BreaksOnlyWhatWasOnce` | wires/admin/service.rs:243-255 | so a run drops its last directory only by a command whose guard read a policy listing none, and bans a person only under an issuer trusted at some point before |
| `Commands.AdminStaysIn` | wires/admin/remove.rs:138-140 | at no point of any interleaved run is the admin's own node banned, nor any role without a matcher |
| `AdminLaws.SequentialIsTimely` | wires/admin/service.rs:237-316 | commands run one after another commit one chain, each on checks made against its own base |
| `AdminLaws.SequentialRunKeeps` | wires/admin/service.rs:237-463 | at every point of every sequential run the stored policy is valid, its version is the number of commands that succeeded, every person ban names a trusted issuer, and since any earlier point the lifetime has not shrunk nor a directory list emptied |
| `AdminLaws.CommitKeepsTrustedIff` | wires/admin/service.rs:402-415 | however commands interleave, a commit keeps every ban under a trusted issuer exactly when it is not a person ban or its issuer is trusted in the policy it changes |
| `AdminLaws.CommitKeepsDirectoryIff` | wires/admin/service.rs:243-255 | however commands interleave, a commit over a policy that lists a directory leaves none exactly when its guard had seen none listed and it drops or bans the one node listed |
| `Interleavings.StaleCheckBansUntrusted` | wires/admin/remove.rs:127-139 | the ban rule fails under interleaving: over every stored policy where an issuer can be dropped, whatever directories it lists, a ban checked before the drop and swapped in after it names an untrusted issuer |
| `Interleavings.StaleListDropsLastDirectory` | wires/admin/service.rs:243-255 | the last-directory rule fails under interleaving: over every stored policy without a directory, an edit whose guard read the empty list drops the directory another command has just listed |
| `Interleavings.BanRuleCanBreak` | wires/admin/remove.rs:127-139 | from every state a run reaches in which an issuer can be dropped, the run goes on to one where a ban names nobody |
| `Interleavings.DirectoryRuleCanBreak` | wires/admin/service.rs:243-255 | from every state a run reaches in which no directory is listed, the run goes on to one that lists a directory and then to one that lists none |
| `Interleavings.BothRulesBreak` | wires/admin/service.rs:237-316 | so from an empty keystore some run stores a policy that keeps each rule and later one that breaks it |
| `Removal.RemovedNodeStaysOut` | wires/admin/remove.rs:140-149 | after a node is removed, every later version signed without its restore, through any edits, refuses it every call and admission, whoever logs in there or nobody, cuts it an empty view, and has it host no service and be no directory |
| `Removal.RemovedPersonStaysOut` | wires/admin/remove.rs:125-139 | after a person is removed, every later version signed without their restore refuses every principal who is that person, from every node, and cuts them an empty view |
| `Removal.OnlyRestoreLiftsNode` | wires/admin/remove.rs:186-214 | of all edits exactly the matching restore lifts a node's ban |
| `Removal.ListedButBanned` | library/services/signed_policy.rs:373-407 | a banned node hosts nothing even in a policy that still lists it, and an unbanned one hosts what lists it |
| `Removal.OnlyRestoreLiftsPerson` | wires/admin/remove.rs:186-214 | of all edits exactly the matching restore lifts a person's ban |
| `Removal.RestoredNodeServesNothing` | wires/admin/remove.rs:186-206 | right after a restore the node's ban is lifted and it hosts no service and is no directory, whatever it did before it was removed |
| `Removal.PersonHowever` | library/services/item.rs:91-128 | a removed person is exactly a principal of that issuer whose verified email is the written one, trimmed, in any letter case |
| `Removal.OnePersonOneBan` | library/services/item.rs:91-128 | two spellings of an email make the same person exactly when they agree but for case and outer space, so one restore undoes one removal |
| `Propagate.PublishAll` | wires/policy/fetch.rs:214-273 | one round sorts every target by its answer: delivered only on this very head, another head at the version counts as newer |
| `Propagate.PublishRetrying` | wires/policy/fetch.rs:291-327 | however many rounds there is time for, the report holds each target's last outcome, a target being asked again exactly while it is patient and only unreached or busy |
| `Propagate.AnswerThatCounts` | wires/policy/fetch.rs:214-327 | every other node that the new head or the one before lists is asked; the first answer that decides counts, asked for again only of listed ones when all are retried or it took an earlier publish; and it alone says whether the node took the policy, holds a newer or different one, or missed it |
| `Propagate.OthersAreNotAsked` | wires/admin/propagate.rs:94-169 | the admin's own node, and any that neither head lists, counts for nothing |
| `Propagate.ReachedFile.Settle` | wires/admin/propagate.rs:186-220 | running directories are counted before this publish's deliveries are recorded |
| `Propagate.ReachedIsEverTook` | wires/admin/propagate.rs:186-220 | over any run of publishes the recorded set is exactly the directories that ever took one |
| `Propagate.ReachedHeldTheHead` | wires/policy/fetch.rs:214-273 | over any run of publishes a directory is recorded as reached only if in some round it answered with the very version and hash of the head published |
| `Propagate.FailsExactlyWhen` | wires/admin/propagate.rs:94-169 | a command fails exactly when its publish erred, some directory holds a newer or different policy, or a directory its head lists that took an earlier publish missed this one; and which of these it reports |
| `Mailboxes.AcceptableOneByOne` | wires/caller/inbox.rs:356-366 | of a batch exactly the messages from the authenticated peer, to this node, not yet expired are kept, in the batch's order and as often as they occur |
| `Mailboxes.OldestAreOldest` | wires/caller/inbox.rs:333-341 | the ids to evict are the oldest by time and id, each older than every one kept, and as few as the cap demands |
| `Mailboxes.ListedIs` | wires/caller/inbox.rs:267-278 | a folder's listing is every message of it, each once, in order of time and id |
| `Mailboxes.Mailbox.Store` | wires/caller/inbox.rs:211-250 | storing acknowledges every id of the batch in order, adds only what was not held, and evicts only if something was added |
| `Mailboxes.Mailbox.TakeUnread` | wires/caller/inbox.rs:292-306 | taking returns exactly the unread messages, oldest first, marks them read, and trims the read ones |
| `MailboxLaws.DeliveryKeeps` | wires/caller/inbox.rs:211-250 | a delivery leaves every acknowledged id held, loses nothing, keeps within the unread cap, and evicts only messages older than every one left unread |
| `MailboxLaws.RedeliveryChangesNothing` | wires/caller/inbox.rs:211-250 | a batch of messages all held already, read or unread, changes nothing and evicts nothing |
| `MailboxLaws.ReadingKeeps` | wires/caller/inbox.rs:292-306 | a reading leaves nothing unread and remembers the newest read messages, dropping only older ones and only past the cap |
| `MailboxLaws.TakenInOrder` | wires/caller/inbox.rs:267-278 | after every run the next reading returns messages by the time they were sent, then by id |
| `MailboxLaws.EvictedAreOldest` | wires/caller/inbox.rs:333-341 | after every run, what the next delivery evicts was sent, by time and then id, before every message it leaves unread |
| `MailboxLaws.TrimmedAreOldest` | wires/caller/inbox.rs:333-341 | and what the next reading forgets was sent before every message it remembers |
| `MailboxLaws.RunKeeps` | wires/caller/inbox.rs:211-306 | over every run unread and read ids stay disjoint, the unread cap holds after every step, and the log accounts for where every id is |
| `MailboxLaws.ReturnedAgainWasTrimmed` | wires/caller/inbox.rs:211-306 | an id is returned a second time only if it was trimmed from the read ones in between |
| `MailboxLaws.StoredIsConserved` | wires/caller/inbox.rs:211-306 | every storing of an id is accounted for as unread, read or trimmed, and every one no longer unread was returned or evicted, once |
| `Calendar.CivilFollowsCalendar` | wires/caller/inbox.rs:432-443 | for every day number, negative ones too: day 0 is 1970-01-01, the date is valid, and the next day's date is its calendar successor (RFC 3339 section 5.7 and Appendix C) |
| `Calendar.DayNumberOfCivil` | wires/caller/inbox.rs:432-443 | counting a day's date out again by years and months gives the day number back |
| `Calendar.CivilOfDayNumber` | wires/caller/inbox.rs:432-443 | every valid date is the date of exactly its counted day, so the conversion is a bijection onto valid dates |
| `Calendar.DaysKeepOrder` | wires/caller/inbox.rs:432-443 | earlier days have earlier dates, and conversely |
| `Calendar.YearStartsAt` | wires/caller/inbox.rs:432-443 | the days of a year and all later ones are those from its first of January on |
| `Utc.LinesSortAsTimes` | wires/caller/inbox.rs:417-428 | for years 0 to 9999 the printed lines sort as text exactly as the seconds they show |
| `Utc.LineReadsBack` | wires/caller/inbox.rs:417-428 | for every time, of any year, the printed line has its marks in their places and read by them shows the very second it was made from |
| `Framing.SplitsWhole` | library/codec.rs:41-61 | a whole frame is split off whatever follows it |
| `Framing.PrefixWeighs` | library/codec.rs:41-49 | a frame is its body behind four bytes that weigh its length, the first most |
| `Framing.PartIsNotYet` | library/codec.rs:51-61 | no strict prefix of a frame is split |
| `Framing.SplitIsExact` | library/codec.rs:41-61 | what is split off is exactly the prefixing of its body |
| `Framing.Read` | library/codec.rs:56-61 | a reader that appends each chunk and decodes while it can computes the specified frames and leftover |
| `Framing.EveryCutReads` | library/codec.rs:41-61 | for any self-delimiting encoding, every way of cutting the concatenated encodings of any frames into chunks reads back as exactly those frames with nothing left over |
| `Frames.WriteFrame` | library/calls/session.rs:286-328 | the payload is the frame's tag and then its body, behind the length |
| `Frames.ExitWeighs` | library/calls/session.rs:286-328 | an exit code is written as its value modulo two to the 32, the first byte weighing most |
| `Frames.FrameDelimited` | library/calls/session.rs:286-361 | every session frame that encodes decodes to itself whatever follows, and every strict prefix of it is not yet a frame |
| `Frames.SessionReads` | library/calls/session.rs:286-361 | a session's frames are read back however its bytes are cut |
| `Frames.PlainFramesAreExact` | library/calls/session.rs:337-361 | a frame without JSON decodes from one byte string only: encoding it again gives the bytes it used |
| `InboxFrames.InboxDelimited` | library/calls/push.rs:313-334 | what the inbox encoder accepts its decoder accepts, whole whatever follows and not yet in part |
| `InboxFrames.InboxReads` | library/calls/push.rs:313-334 | inbox frames are read back however the bytes are cut |
| `InboxFrames.EncodesIff` | library/calls/push.rs:310-334 | a frame encodes exactly when it has at most the batch limit of messages or ids and its JSON at most the size limit |
| `InboxFrames.TooLongIsRefusedAtOnce` | library/calls/push.rs:339-347 | a length over the limit is refused on its four bytes alone |
| `InboxFrames.DecodedIsWithinLimits` | library/calls/push.rs:326-360 | whatever decodes is within the batch and size limits |
| `Matchers.PatternReparses` | library/services/role.rs:117-159 | every accepted email pattern prints to text that parses to it again, so it matches the same addresses |
| `Matchers.PatternAcceptedIff` | library/services/role.rs:117-159 | exactly which text is an email pattern: `*@` and a domain, or one address without `*` |
| `Matchers.DomainMatches` | library/services/role.rs:100-109 | every accepted domain pattern matches exactly the addresses with a local part at the very domain that was written, in any letter case |
| `Matchers.AddressMatches` | library/services/role.rs:100-109 | an accepted address matches exactly itself in any letter case |
| `Matchers.Parse` | wires/admin/service.rs:480-530 | the parsing loop fills each slot at most once and reports the first fault, as specified |
| `Matchers.Print` | library/services/role.rs:254-270 | the printed text is the issuer and then the keys present, in order, joined by commas |
| `MatcherLaws.AcceptedIff` | wires/admin/service.rs:496-530 | key=value text is accepted exactly when the default issuer is not blank, every part is a known key with a value, every email is a pattern, and no key is given twice, the issuer's two names being one |
| `MatcherLaws.ReadPartIff` | wires/admin/service.rs:497-512 | which parts are pairs: what stands before the first `=` is, trimmed, one of the five names, and what stands after is, trimmed, the value |
| `MatcherLaws.MatcherIsAsWritten` | wires/admin/service.rs:496-530 | each key of the matcher read is what some pair says, and the issuer the default when no pair says one |
| `MatcherLaws.PrintedIs` | library/services/role.rs:254-270 | the printed text spelt out: issuer, email, organisation, group, in that order |
| `MatcherLaws.KeyPrinted` | library/services/role.rs:254-270 | each key the matcher has is printed behind a comma and before an equals sign and its value |
| `MatcherLaws.KeyValueRoundTripIff` | wires/admin/service.rs:480-530 | accepted key=value text comes back from its printed form, under every later default that is not blank, exactly when one of its pairs names the issuer or the default it was read under has no comma |
| `MatcherLaws.RoundTripIff` | library/services/role.rs:254-270 | printing then parsing gives a matcher back exactly when every value it carries is non-blank, comma-free and without outer space, and its email in parsed form |
| `MatcherLaws.BareEmailRoundTripIff` | wires/admin/service.rs:486-494 | an accepted bare email comes back from its printed form exactly when neither it nor the default issuer has a comma |
| `MatcherLaws.CommaInEmailIsLost` | wires/admin/service.rs:486-494 | the bare email a,b@x is accepted under every default issuer and does not come back |
| `MatcherLaws.CommaInDefaultIsLost` | wires/admin/service.rs:480-530 | the pair org=x read under the default issuer a,b is accepted and does not come back |
| `MatcherLaws.PairsInAnyOrder` | wires/admin/service.rs:497-526 | writing the pairs of accepted text in any order parses to the same matcher |

## Left out

- Protocol: honest directories' clocks are bounded ahead of the caller's but not behind; the caller refreshing its view on a newer head, the network string's extra known directories (wires/caller/vouch.rs:161-163) and what a host does with a token are not modelled.
- Protocol: the root may sign any well-formed head content at any version, which allows more than the admin's edits do; `RemovedHostWindowRising` is the statement for rising versions.
- Freshness.FromUnverified: no selection over the whole list is claimed where one signer has several words, because each is looked at when it was signed; `NextWordRead` says what each next word does.
- Freshness: the code's type for a word that verified against a head is not a separate type here; the set takes any word, so its laws hold of more sets.
- Mailboxes.Mailbox.Store: one command at a time; two processes storing or taking at once, unreadable files, write failures and the eviction notes' text are not modelled.
- Propagate.ReachedFile.NoteReached: a failure to write the record, which the program only logs, is not modelled.
- Propagate.PublishRetrying: the time budget is the number of rounds given; answers are given per round.
- Admin.Keystore.Run: files, locks and the keystore's layout are one field that changes in one step; a keystore without a root key is not modelled.
- AdminRuns.NoLostUpdate: the admin's store changes only by admin commands; a copy adopted from the network on a node that is also a host is not modelled.
- Edits: names of services and roles are any strings (their syntax is checked before an edit), labels and resolving who is meant from typed text are not modelled.
- Matchers: error texts are reduced to the kind of fault; which of two faults of one text is reported is as in the code.
- Frames: hello, ack and invocation bodies are opaque values with a lawful codec; serde_json's text itself is not modelled.
- Utc: only lines for years 0 to 9999 are claimed to sort; outside them the year's width varies.
- Ed25519, blake3, ID-token verification and everything that only performs I/O (connections, timeouts, host picking, the stdio bridge, the gateway, command-line parsing, messages).
- The directory's subscribe request frames: their decoder has a smaller limit than their encoder, so no encode-implies-decode law holds there.
- Lifetimes, login-client settings, the network string, hex ids, help text and exit codes: simple members without a law of their own.
