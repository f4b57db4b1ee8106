# Evidence and decision kernel of the obsvr Python SDK

Models of the deterministic core of the SDK, with proofs of what that core promises: chains of signed events and the two verifiers that judge them, the byte layouts that hashes and signatures cover, the text views that scanners read, the intent decision engine in both its versions, the durable outbox, quota escrow, policy templates, control expressions, coverage attestations, and the two pruned histories.

`dafny verify dfyconfig.toml` verifies the whole project.

## How it is laid out

| files | what they model |
|---|---|
| `ChainEvents`, `StreamVerifier`, `BatchVerifier`, `ChainAgreement` | the streaming verifier with its reorder buffer, the batch verifier, and how their judgements relate |
| `ChainFormat` | framed preimages, decision fields, and the signed payload of formats 1 to 5 |
| `Base64`, `HiddenHtml`, `HiddenElements`, `TextViews`, `TextForms`, `Strings` | the base64 decoder, the HTML scanners, markup as it is written, and the canonical text view |
| `Documents`, `IntentPolicy`, `IntentForms`, `ActionContext`, `IntentAlignment`, `IntentVerdicts`, `IntentAccepted` | normal forms of policies and contexts, the decision in versions 1 and 2, its outcome in terms of the documents as given, and which documents are accepted |
| `Outbox`, `OutboxRuns` | the outbox and everything that can happen to it over a run, with faults and crashes |
| `Escrow` | shares of a fleet-wide quota, under every interleaving of grants, responses and spends |
| `PolicyTemplate`, `StrippedText` | template validation and rendering |
| `ControlExpression` | bounded validation and evaluation of control expressions |
| `CoverageBindings`, `CoverageAttestation` | binding snapshots, derived failures, and the rebuild of an attestation body |
| `LoopDetection`, `PolicyLog` | the sliding window and the snapshot buffer, against the full history |
| `CodePoints`, `StableSort`, `SeqFacts`, `Wrappers` | code point order, stable sorting by a text key, facts about sequences, optional values |

What the program updates in place is a class (`ChainVerifier`, `DurableOutbox`, `EscrowMeter`, `Visitor`, `Counter`, `LoopDetector`, `PolicyLog`), and each of its loops is a loop here. Such a method is proved equal to a function of its inputs or of the old state, and what the program promises is then proved of that function. SHA-256, HMAC, canonical JSON, regular expressions, `str.lower` and `str.isalnum` are function parameters; a lemma that needs one of them to be injective says so.

## Where the promise needs a condition

- **Base64.** Each variant decodes the canonical encoding of every byte string, except that the padded variants refuse the empty text (`Base64.RoundTrip`).
- **Signed payload.** The comment at `sdk-python/obsvr/chain_format.py:259-261` calls the leading format number tamper-evident. It is between formats 2 to 5, and against format 1 while its session ids are free of bars. Otherwise, on byte strings, every format 2 payload is also the payload of a format 1 event, whose session id is the format 2 head and whose prompt is the tagged content; that prompt is ASCII text exactly when both texts and the bytes of their lengths are, as for texts of up to 127 bytes (`ChainFormat.PosedText`); a payload of format 3 or later is shared exactly when its content hash is the decimal text of a number. Payloads are equal exactly when the parts are or one event poses as the other in this way (`ChainFormat.PayloadDetermines`, `ChainFormat.PosedCollides`, `ChainFormat.PosedLater`).
- **Broken links.** Gaps and repeats never depend on the delivery order, nor does whether gaps, repeats and broken links are all absent. The links that are checked are the same in every order exactly when all copies of a number agree, as they do when an event is sent again (`StreamVerifier.TableOrderFree`, `StreamVerifier.RepeatedNumberOrderMatters`).
- **`clean`.** The full verdict does depend on the order, through the session check: an event without a session is a mismatch after one that names its session and not before. Some order is clean and some order is not exactly when everything else is sound and events with and without a session are mixed (`StreamVerifier.CleanOrderFree`, `StreamVerifier.CleanDependsOnOrder`).
- **Two verifiers.** The batch verifier does not look at the link of a session's first event and refuses unnumbered events, which the stream skips; up to exactly these points they agree (`ChainAgreement.StreamAgreesWithBatch`).
- **Outbox counters.** From exact counters, a step leaves them exact unless it took effect and then failed before being counted, or it is a `configure` that a check stopped before it recounted existing files; those two leave the counters behind the directories until a `configure` succeeds (`OutboxRuns.StepExact`, `OutboxRuns.LateFaultUncounted`, `OutboxRuns.FailedConfigureOvershoots`). In runs without such steps they are exact throughout.
- **Escrow.** A rule left out of a response forgets its epoch, so an older grant is accepted again (`Escrow.DroppedForgetsEpoch`).
- **Version 2 of the intent decision.** It differs from version 1 exactly when the decision gets as far as the target (the base result settles nothing, and the one active intent is declared and allows the action) and the target is not allowed but has the hash of one that is (`IntentAlignment.SimulationExact`, `IntentAlignment.VersionsDiffer`).
- **Coverage attestation.** The sort key of a binding joins its two names with NUL. When names contain NUL, different bindings can tie, and regrouping them by integration can sort them differently; a built body then fails its own verification. A built body is accepted exactly when its pairs are distinct and, of two bindings with the same key, the earlier belongs to an integration that appears earlier; symbols free of NUL leave no such ties. So every body built from a snapshot with distinct trimmed pairs and no NUL in its trimmed symbols is accepted, and none is when the trimmed pairs repeat (`CoverageAttestation.BuiltFixpoint`, `CoverageAttestation.SnapshotFixpoint`, `CoverageAttestation.TiedRejected`).
- **Control expressions.** `not_equals` is the negation of `equals` exactly on documents that have the path, because every operator but `exists` is false on an absent one (`ControlExpression.NotEqualsNegates`).
- **Pruned window.** It counts what the full history counts exactly when the present window reaches back to no iteration that was out of the window at an earlier reading; a clock that has not gone back guarantees that (`LoopDetection.PrunedExact`, `LoopDetection.ClockBackMisses`).
- **Bounded sets.** Order and repetition do not change the set a list stands for, but repeated items count towards the bound of 64 (`Documents.OrderFree`, `Documents.RepeatsCount`).
- **Snapshot search.** On snapshots out of time order the binary search can find nothing although a retained snapshot is old enough (`PolicyLog.UndividedMisses`).

## Model

| member | source | states |
|---|---|---|
| StreamVerifier.ChainVerifier.Feed | bench/python/bench_lib.py:103-181 | whatever the order, loss or repetition of what is fed, the frontier, the buffer, the expected link and every counter stay those of the complete list of events fed |
| StreamVerifier.ChainVerifier.Note | bench/python/bench_lib.py:103-156 | the event, session, format and signature counters stay those of the complete list of events fed; an event of format 1 to 5 or none is checked, any other is counted as unsupported |
| StreamVerifier.ChainVerifier.Place | bench/python/bench_lib.py:157-175 | a numbered event is counted as a repeat or buffered, and the buffer drained, so that the chain state is again that of all numbered events |
| StreamVerifier.ChainVerifier.Drain | bench/python/bench_lib.py:169-175 | the nested loop empties the buffer up to the first missing number and counts exactly the links that break there |
| StreamVerifier.ChainVerifier.Finalize | bench/python/bench_lib.py:183-187 | what is still buffered becomes gaps |
| StreamVerifier.FeedConservation | bench/python/bench_lib.py:157-181 | after every feed, numbered events = drained + buffered + repeats, and everything buffered lies beyond the awaited number |
| StreamVerifier.Verdict | bench/python/bench_lib.py:157-190 | no gaps, repeats or broken links exactly when the numbers fed are a permutation of 1..n whose links chain in number order |
| StreamVerifier.ClosingVerdict | bench/python/bench_lib.py:183-197 | the counters read after closing say the same, and `clean` holds exactly for an authentic, single-session clean chain |
| StreamVerifier.EventVerdicts | bench/python/bench_lib.py:103-156 | the format, signature and session counters are zero exactly when every event passes |
| StreamVerifier.OrderIndependence | bench/python/bench_lib.py:157-181 | gaps and repeats do not depend on the delivery order, nor, when the copies of each number agree, do broken links |
| StreamVerifier.TableOrderFree | bench/python/bench_lib.py:160-181 | the links checked are the same in every delivery order exactly when the copies of each number agree |
| StreamVerifier.VerdictOrderIndependence | bench/python/bench_lib.py:157-190 | two closed verifiers fed the same events in any two orders have equal gaps and repeats, and either both or neither have all three counters at zero |
| StreamVerifier.RepeatedNumberOrderMatters | bench/python/bench_lib.py:160-181 | two unequal events with one number for which the count of broken links depends on which comes first |
| StreamVerifier.CleanOrderFree | bench/python/bench_lib.py:103-110 | the full verdict over all orders: when some order is clean, when every order is, and that these differ exactly when events with and without a session are mixed in an otherwise sound feed |
| StreamVerifier.CleanDependsOnOrder | bench/python/bench_lib.py:107-110 | two events that are clean in one order and not in the other |
| ChainAgreement.KnownToSigner | bench/python/bench_lib.py:131-156 | an event of a format the signer can write, or of none, is never counted as unsupported and counts as a signature failure exactly when it is not authentic; an event of any other format is counted the other way round |
| ChainAgreement.CleanAsStored | bench/python/bench_lib.py:103-190 | `clean` in terms of the stored fields: the integer-numbered events, `true` counting as 1, form one chain from 1, the formats are 1 to 5 or absent, every event is authentic, and the sessions agree |
| BatchVerifier.VerifySession | sdk-python/obsvr/cli_verify.py:185-240 | reports the first fault in sequence order, and none exactly when some ordering of the events is a sound chain |
| BatchVerifier.SessionVerdict | sdk-python/obsvr/cli_verify.py:185-240 | sorting and comparing neighbours decides whether any sound ordering exists |
| BatchVerifier.SortedAscends | sdk-python/obsvr/cli_verify.py:185-200 | the sort is an ascending permutation |
| BatchVerifier.SortedStable | sdk-python/obsvr/cli_verify.py:185-200 | events with one number keep their order |
| BatchVerifier.AcceptedAsStored | sdk-python/obsvr/cli_verify.py:114-240 | a session is accepted exactly when some order of its events has the stored numbers 1, 2, 3, ..., 64-character signatures, each quoted by the next event, times that do not go back and one format |
| BatchVerifier.FaultAsStored | sdk-python/obsvr/cli_verify.py:201-240 | what each reported fault says about the stored fields |
| BatchVerifier.GroupBySession | sdk-python/obsvr/cli_verify.py:153-175 | each session's list holds that session's events in order, and the sessions are listed once each, by first appearance |
| BatchVerifier.VerifyStructure | sdk-python/obsvr/cli_verify.py:153-182 | accepts exactly the bundles whose every session is accepted, and otherwise names a refused session, its fault, and that every session appearing earlier is accepted |
| ChainAgreement.StreamAgreesWithBatch | sdk-python/obsvr/cli_verify.py:185-240 | for every list of events, fed in any order: the batch verdict with an unlinked head is the stream verdict plus the remaining structural conditions |
| ChainAgreement.VerifierAgreesWithBatch | bench/python/bench_lib.py:157-190 | the same between the sorted check and the closed counters of a verifier fed in any order |
| ChainAgreement.SessionPermuted | sdk-python/obsvr/cli_verify.py:185-240 | the verdict on a session does not depend on the order of its events, repeated numbers included |
| ChainAgreement.BundlePermuted | sdk-python/obsvr/cli_verify.py:153-182 | the verdict on a bundle does not depend on order or interleaving |
| ChainAgreement.OneSession | sdk-python/obsvr/cli_verify.py:153-182 | a bundle of one session, events without one counting as "unknown", is judged as that session |
| ChainAgreement.SessionsApart | sdk-python/obsvr/cli_verify.py:153-182 | in every interleaving, one session's events together with any others are accepted exactly when that session is accepted and the others are |
| ChainAgreement.TwoSessions | sdk-python/obsvr/cli_verify.py:153-182 | so two sessions, one after the other or interleaved, are each judged on their own |
| ChainAgreement.AcceptedParts | sdk-python/obsvr/cli_verify.py:185-240 | the accepted parts of an accepted session are exactly its prefixes by number |
| ChainAgreement.DeletionNoticed | sdk-python/obsvr/cli_verify.py:185-240 | removing one event is noticed unless it is the last |
| ChainAgreement.AcceptedSubBundles | sdk-python/obsvr/cli_verify.py:153-240 | the accepted parts of an accepted bundle are exactly those that are a prefix in every session |
| ChainFormat.ContentPreimageInjective | sdk-python/obsvr/chain_format.py:160-182 | from format 2 on, the content preimage determines prompt and response |
| ChainFormat.LegacyContentCollides | sdk-python/obsvr/chain_format.py:160-182 | format 1's bare concatenation has an explicit collision |
| ChainFormat.ContentLayout | sdk-python/obsvr/chain_format.py:160-182 | the content preimage by position: tag, zero byte, and before each text its length as eight bytes, most significant first; format 1 is the two texts alone |
| ChainFormat.DecisionFieldsOf | sdk-python/obsvr/chain_format.py:185-206 | the fields read are exactly the format's, each with the event's value |
| ChainFormat.OneReader | sdk-python/obsvr/chain_format.py:113-157 | fields read for a newer format hash as before under every older one |
| ChainFormat.DecisionHash | sdk-python/obsvr/chain_format.py:209-244 | feeding the hash field by field hashes the framed preimage |
| ChainFormat.DecisionHeader | sdk-python/obsvr/chain_format.py:209-234 | the decision preimage starts with the tag of its format and a zero byte, and has no bytes beyond its fields |
| ChainFormat.DecisionLayout | sdk-python/obsvr/chain_format.py:209-244 | each published field of each format at its offset: a byte that is 1 exactly when the field is present, its length as eight bytes, most significant first, and its value |
| ChainFormat.DecisionPreimageInjective | sdk-python/obsvr/chain_format.py:209-244 | a decision preimage determines the presence and value of every signed field |
| ChainFormat.PreimagesSeparate | sdk-python/obsvr/chain_format.py:160-244 | preimages of different decision formats, and of a decision and a content from format 2 on, never coincide |
| ChainFormat.DecimalInjective | sdk-python/obsvr/chain_format.py:247-278 | decimal printing is injective |
| ChainFormat.DecimalReads | sdk-python/obsvr/chain_format.py:267-272 | the decimal text of a number reads back, has no leading zero, and has a minus sign exactly below zero |
| ChainFormat.SignaturePayload | sdk-python/obsvr/chain_format.py:247-278 | the appended and inserted list joins to the payload of its format |
| ChainFormat.PayloadText | sdk-python/obsvr/chain_format.py:247-278 | the signed text written out for every format, over the hashes of the two preimages |
| ChainFormat.NoPredecessor | sdk-python/obsvr/chain_format.py:275-275 | an event without a predecessor signs like one with an empty one |
| ChainFormat.PayloadDetermines | sdk-python/obsvr/chain_format.py:247-278 | over all pairs of formats, payloads are equal exactly when format, session, number, time, hashes and link are, or one event poses as the other |
| ChainFormat.PosedCollides | sdk-python/obsvr/chain_format.py:247-278 | on byte strings, every format 2 payload is also that of a format 1 event, whatever the hash |
| ChainFormat.PosedText | sdk-python/obsvr/chain_format.py:160-182 | the prompt of that event is ASCII text exactly when the format 2 texts and the bytes of their lengths are |
| ChainFormat.PosedLater | sdk-python/obsvr/chain_format.py:247-278 | a payload of format 3 or later is shared with format 1 exactly when its content hash is the decimal text of a number |
| ChainFormat.PosesNeedsBar | sdk-python/obsvr/chain_format.py:247-278 | an event with a bar-free session id cannot pose |
| ChainFormat.PayloadCommits | sdk-python/obsvr/chain_format.py:160-278 | with an injective hash, payloads are equal exactly when the events agree on everything signed |
| Base64.DecodeVariant | sdk-python/obsvr/deobfuscate.py:491-531 | the decoder, padding and remainder handling included, computes the decoding that the laws below describe, or fails as it does |
| Base64.Alphabets | sdk-python/obsvr/deobfuscate.py:491-531 | both alphabets, spelled out |
| Base64.TestVectors | sdk-python/obsvr/deobfuscate.py:491-531 | the encoding that the decoder is proved against gives the test vectors of RFC 4648, section 10 |
| Base64.Assemble | sdk-python/obsvr/deobfuscate.py:518-531 | groups of four and the remainder give the bytes of the bit string |
| Base64.BitsInvertEncode | sdk-python/obsvr/deobfuscate.py:491-531 | regrouping six-bit values inverts the grouping of RFC 4648, section 4 |
| Base64.RoundTrip | sdk-python/obsvr/deobfuscate.py:491-531 | decoding inverts the canonical encoding in all four variants, for every byte string, except that padded variants refuse the empty text |
| Base64.DecodedLength | sdk-python/obsvr/deobfuscate.py:491-531 | every success on k data characters yields floor(3k/4) bytes |
| HiddenHtml.FindTagEnd | sdk-python/obsvr/deobfuscate.py:240-256 | the quote-aware loop finds the end that TagEndFirst describes |
| HiddenHtml.TagEndFirst | sdk-python/obsvr/deobfuscate.py:240-256 | that end is the first `>` outside quotes, and -1 means there is none |
| HiddenHtml.IndexOfClosingTag | sdk-python/obsvr/deobfuscate.py:259-290 | the depth-counting loop finds the closer that CloserMeaning describes |
| HiddenHtml.ReadMark | sdk-python/obsvr/deobfuscate.py:268-280 | reads the tag at a `<`, or that there is none, or that it never ends |
| HiddenHtml.CloserMeaning | sdk-python/obsvr/deobfuscate.py:259-290 | the closer is the first same-name tag at which the depth returns to zero; without one the depth never does |
| HiddenElements.CloserAsWritten | sdk-python/obsvr/deobfuscate.py:259-290 | behind any content written from a tree of elements, the closer found is exactly the closing tag that follows it, however deeply the content nests elements of the same name, void and self-closing ones among them |
| HiddenHtml.HasHiddenAttribute | sdk-python/obsvr/deobfuscate.py:293-343 | the attribute loop with its early return decides whether some attribute hides the element |
| HiddenHtml.AttributesReadBack | sdk-python/obsvr/deobfuscate.py:303-332 | attributes written with values in double quotes are read back as they were |
| HiddenHtml.HiddenAsWritten | sdk-python/obsvr/deobfuscate.py:293-343 | an element so written is hidden exactly when one of its attributes hides it |
| HiddenElements.HidingForms | sdk-python/obsvr/deobfuscate.py:293-343 | `aria-hidden="true"`, and a style with `display: none` or `visibility: hidden` in any spacing, hide |
| HiddenElements.HarmlessForms | sdk-python/obsvr/deobfuscate.py:293-343 | other attributes, other values of `aria-hidden` and styles without a property do not |
| HiddenElements.QuotedValue | sdk-python/obsvr/deobfuscate.py:320-336 | a value in double or single quotes, closed or up to the end, with any whitespace around `=` |
| HiddenElements.BareValue | sdk-python/obsvr/deobfuscate.py:331-336 | an unquoted value ends at the next whitespace |
| HiddenElements.NoValue | sdk-python/obsvr/deobfuscate.py:320-324 | a name without `=` has the empty value |
| HiddenElements.JunkSkipped | sdk-python/obsvr/deobfuscate.py:304-306 | what holds no letter is skipped in front of an attribute name |
| HiddenElements.SelfClosingSpaced | sdk-python/obsvr/deobfuscate.py:215-219 | a tag closes itself exactly when a slash is the last character other than the whitespace of `trimEnd` |
| HiddenHtml.ScanAttribute | sdk-python/obsvr/deobfuscate.py:304-332 | one pass of the loop reads one attribute and makes progress |
| HiddenHtml.ScanValue | sdk-python/obsvr/deobfuscate.py:316-332 | reads a quoted or bare attribute value and where it ends |
| HiddenHtml.FindRegionEnd | sdk-python/obsvr/deobfuscate.py:403-407 | where the removed interval ends |
| HiddenHtml.RegionEndMeaning | sdk-python/obsvr/deobfuscate.py:403-407 | it ends past the tag itself for void, self-closing and unterminated elements, and past the matching closer otherwise |
| HiddenHtml.StripHiddenHtml | sdk-python/obsvr/deobfuscate.py:346-413 | terminates, and returns the text without the removed intervals |
| HiddenElements.VisibleAsWritten | sdk-python/obsvr/deobfuscate.py:346-413 | of markup written from a tree of elements exactly the hidden elements go, each with everything inside it, whatever its attribute values hold |
| HiddenElements.UnclosedAsWritten | sdk-python/obsvr/deobfuscate.py:346-413 | a hidden element that is never closed loses its opening tag only |
| HiddenHtml.RegionsOrdered | sdk-python/obsvr/deobfuscate.py:346-413 | the intervals are ordered and disjoint |
| HiddenHtml.OnlyHiddenRemoved | sdk-python/obsvr/deobfuscate.py:346-413 | every interval is a hidden element, from its `<` to its own end |
| HiddenHtml.EveryHiddenRemoved | sdk-python/obsvr/deobfuscate.py:346-413 | every hidden opening tag is removed unless it is part of a visible tag's own text |
| HiddenHtml.KeptShrinks | sdk-python/obsvr/deobfuscate.py:346-413 | nothing is added, and removing anything shortens the text |
| TextViews.StripInvisible | sdk-python/obsvr/deobfuscate.py:147-156 | the loop leaves exactly the visible characters, in order |
| TextForms.InvisibleJoin | sdk-python/obsvr/deobfuscate.py:147-156 | the other characters stay, in order |
| TextViews.FoldConfusables | sdk-python/obsvr/deobfuscate.py:159-175 | every character is folded |
| TextViews.FoldedOnce | sdk-python/obsvr/deobfuscate.py:113-133 | a folded character is not foldable again and does not become invisible |
| TextForms.FullWidth | sdk-python/obsvr/deobfuscate.py:159-175 | the full-width form of an ASCII character is folded to that character |
| TextViews.StripHtmlComments | sdk-python/obsvr/deobfuscate.py:178-201 | the index loop terminates with the text that CommentsStripped describes |
| TextViews.CommentsStripped | sdk-python/obsvr/deobfuscate.py:178-201 | no `<!--` remains, the text does not grow, and stripping twice is stripping once |
| TextForms.CommentsAsWritten | sdk-python/obsvr/deobfuscate.py:178-201 | a comment as written becomes one space and stripping goes on behind it; an unclosed one becomes a space and ends the text |
| TextViews.CollapseMeaning | sdk-python/obsvr/deobfuscate.py:416-418 | the words are kept, with single spaces between them and none outside |
| TextViews.CollapseIdempotent | sdk-python/obsvr/deobfuscate.py:416-418 | collapsing twice is collapsing once |
| TextViews.CanonicalView | sdk-python/obsvr/deobfuscate.py:606-623 | the canonical view is offered exactly when it differs and is not blank |
| TextViews.CanonicalClean | sdk-python/obsvr/deobfuscate.py:617-623 | the composed view holds no invisible or foldable character, has neat spacing, and is no longer than the text |
| IntentPolicy.PolicyRebuilds | sdk-python/obsvr/intent_alignment_v2.py:123-220 | a canonical policy document means what it was written from, in both versions |
| IntentPolicy.BuildIdempotent | sdk-python/obsvr/intent_alignment_v2.py:199-220 | building a built policy changes nothing |
| IntentPolicy.BuildCanonical | sdk-python/obsvr/intent_alignment_v2.py:199-220 | two accepted policies build to the same document exactly when they are read alike |
| IntentPolicy.PairsByKind | sdk-python/obsvr/intent_alignment.py:80-88 | written actions are in the order of their kinds, and those of one kind in the order of their names |
| IntentAccepted.PolicyAccepted | sdk-python/obsvr/intent_alignment_v2.py:199-220 | exactly which policies are accepted: schema, version, only accepted scopes, no id twice |
| IntentAccepted.ScopeAccepted | sdk-python/obsvr/intent_alignment_v2.py:123-196 | exactly which scopes are accepted, field by field, with one of two target lists in version 2 |
| IntentPolicy.ScopesMeaning | sdk-python/obsvr/intent_alignment_v2.py:199-220 | a list of scopes that is read means its scopes by id |
| IntentForms.ReadScopesExactly | sdk-python/obsvr/intent_alignment_v2.py:209-212 | a list of scopes is read exactly when each of them is and no id appears twice |
| IntentForms.ScopeOrderFree | sdk-python/obsvr/intent_alignment_v2.py:209-218 | rearranged lists of scopes are read alike, or are both refused |
| IntentForms.SameScopeReads | sdk-python/obsvr/intent_alignment_v2.py:123-196 | scopes that differ in the order and repetition of list items, or in targets against hashes, are read alike or both refused |
| IntentForms.SameBuilds | sdk-python/obsvr/intent_alignment_v2.py:199-220 | policies that differ in these ways and in the order of scopes build to the same document or are both refused |
| IntentForms.CanonicalExactly | sdk-python/obsvr/intent_alignment_v2.py:199-220 | accepted policies build to the same document exactly when they differ in these ways alone |
| IntentForms.RawOrHashed | sdk-python/obsvr/intent_alignment_v2.py:139-168 | an accepted list of raw targets may be replaced by any list of exactly their hashes |
| Documents.OrderFree | sdk-python/obsvr/strict_canonical.py:40-55 | lists within the bound that have the same items stand for the same set, or are both refused |
| Documents.RepeatsCount | sdk-python/obsvr/strict_canonical.py:49-50 | 65 copies of one text are refused although one is accepted |
| Documents.BoundsInNumbers | sdk-python/obsvr/strict_canonical.py:7-55 | the bounds on texts, targets, lists and whole numbers, in numbers |
| Documents.TextSetRebuilds | sdk-python/obsvr/strict_canonical.py:40-55 | a bounded sorted set is read back as itself |
| ActionContext.InputRead | sdk-python/obsvr/action_context_v2.py:206-339 | every context read satisfies all bounds of its version |
| ActionContext.InputRebuilds | sdk-python/obsvr/intent_alignment_v2.py:233-253 | taking a canonical context document apart gives the input it was built from, and reading that gives the context |
| ActionContext.ContextRebuilds | sdk-python/obsvr/intent_alignment_v2.py:233-262 | a built context supplied as a document is the same context, so its hash does not depend on the form supplied |
| IntentAccepted.ContextAccepted | sdk-python/obsvr/action_context_v2.py:316-339 | a context is accepted exactly when its input is and version 2's canonical JSON has at most 65536 bytes |
| IntentAccepted.DocumentAccepted | sdk-python/obsvr/intent_alignment.py:175-227 | exactly which documents supply an input, in both versions |
| IntentAccepted.InputAccepted | sdk-python/obsvr/action_context_v2.py:206-339 | exactly which inputs are accepted, field by field, version 2 with at most 256 prior actions |
| IntentAccepted.ActionAccepted | sdk-python/obsvr/action_context_v2.py:227-302 | exactly which actions are accepted, the rules for targets and retries included |
| IntentAccepted.PriorsAccepted | sdk-python/obsvr/action_context_v2.py:304-314 | prior actions are accepted exactly when each is and their sequence numbers ascend |
| IntentAccepted.PriorAccepted | sdk-python/obsvr/action_context_v2.py:175-203 | exactly which prior action is accepted |
| IntentAccepted.LayersAccepted | sdk-python/obsvr/action_context_v2.py:87-119 | exactly which principals and executions are accepted |
| IntentAccepted.GovernanceAccepted | sdk-python/obsvr/action_context_v2.py:122-163 | exactly which governance layers are accepted |
| IntentAlignment.AllowMeans | sdk-python/obsvr/intent_alignment.py:323-435 | the action is allowed, modified or escalated exactly when the base result says so and it lies within the declared intent |
| IntentVerdicts.BaseAccepted | sdk-python/obsvr/intent_alignment.py:230-296 | exactly which base results are accepted, for both versions |
| IntentVerdicts.OutcomeAsGiven | sdk-python/obsvr/intent_alignment.py:323-425 | for both versions and every accepted base result as given: exactly when the outcome is ALLOW, MODIFY, STEP_UP, DENY for a blocked base, and each of the base deferrals |
| IntentVerdicts.WithinAsGiven | sdk-python/obsvr/intent_alignment.py:366-406 | lying within the intent is being admitted by a scope of the policy as given, field by field and item by item, for both versions |
| IntentVerdicts.AllowedAsGiven | sdk-python/obsvr/intent_alignment_v2.py:329-429 | for either version and three documents as given, the action goes ahead exactly when the base result says "allowed" and some scope of the policy admits the input |
| IntentAlignment.SimulationExact | sdk-python/obsvr/intent_alignment_v2.py:329-429 | version 2 decides as version 1 except exactly when the decision reaches a target that is not allowed but collides with one that is |
| IntentAlignment.VersionsDiffer | sdk-python/obsvr/intent_alignment_v2.py:363-429 | inputs and a hash with which version 2 allows what version 1 refuses |
| IntentAlignment.SameContext | sdk-python/obsvr/action_context_v2.py:206-339 | a context both versions accept, raw or as a relabelled document, is read alike up to the hashed target |
| IntentAlignment.SamePolicy | sdk-python/obsvr/intent_alignment_v2.py:123-220 | a policy both versions accept is read alike up to hashed targets |
| IntentAlignment.SameBase | sdk-python/obsvr/intent_alignment_v2.py:265-310 | a base result both versions accept is read alike |
| IntentAlignment.Simulation | sdk-python/obsvr/intent_alignment_v2.py:363-429 | with a hash that keeps the involved targets apart, both versions return the same outcome, reason and required fields, for contexts supplied raw or as documents |
| Outbox.TotalSize | sdk-python/obsvr/durable_outbox.py:56-57 | the sum of the file sizes of a directory |
| Outbox.DurableOutbox.DoConfigure | sdk-python/obsvr/durable_outbox.py:70-100 | the new state, recounted or, when a check raises first, with zero counters; it raises exactly when a check does or the directories exceed the limit |
| Outbox.DurableOutbox.DoPersist | sdk-python/obsvr/durable_outbox.py:111-152 | the new state and outcome for every fault point |
| Outbox.DurableOutbox.DoAcknowledge | sdk-python/obsvr/durable_outbox.py:178-190 | the new state and outcome for every fault point |
| Outbox.DurableOutbox.DoDeadLetter | sdk-python/obsvr/durable_outbox.py:193-206 | the new state and outcome for every fault point |
| Outbox.DurableOutbox.PendingRecords | sdk-python/obsvr/durable_outbox.py:155-170 | every pending record once, in file name order, or a failure exactly when some file is invalid |
| OutboxRuns.LeavesPending | sdk-python/obsvr/durable_outbox.py:111-206 | a record leaves the pending directory only by being acknowledged or dead-lettered |
| OutboxRuns.LedgerHolds | sdk-python/obsvr/durable_outbox.py:70-206 | over every run with faults and crashes, each record created is in exactly one of pending, dead and acknowledged |
| OutboxRuns.ResolvingTwice | sdk-python/obsvr/durable_outbox.py:178-206 | resolving a record again, in either way, changes nothing |
| OutboxRuns.CountersExact | sdk-python/obsvr/durable_outbox.py:70-206 | in every run without an uncounted step, the counters equal the directories, the totals balance, and the bytes stay within the limit |
| OutboxRuns.TotalsExact | sdk-python/obsvr/durable_outbox.py:70-206 | in the same runs, the three totals are the numbers of ids persisted, acknowledged and dead-lettered since the outbox was configured, each counted on its own |
| OutboxRuns.StepExact | sdk-python/obsvr/durable_outbox.py:70-206 | from exact counters, a step leaves them exact exactly when it is not an uncounted one |
| OutboxRuns.FailedConfigureOvershoots | sdk-python/obsvr/durable_outbox.py:70-122 | a run in which a failed `configure` lets a record in beyond the limit |
| OutboxRuns.ClampsIdle | sdk-python/obsvr/durable_outbox.py:178-206 | the clamps at zero never act while the counters are exact |
| OutboxRuns.LateFaultUncounted | sdk-python/obsvr/durable_outbox.py:136-152 | a run with a late fault in which a clamp acts and more is resolved than persisted |
| OutboxRuns.Restart | sdk-python/obsvr/durable_outbox.py:70-170 | after a crash and a restart the counters are exact and the pending records are exactly the unresolved ones |
| OutboxRuns.DeadNameDetermines | sdk-python/obsvr/durable_outbox.py:193-206 | a dead letter's file name determines its record |
| Outbox.SafeReasonMeaning | sdk-python/obsvr/durable_outbox.py:199-200 | the reason in a dead letter's file name, character by character, cut to 64 |
| Escrow.EscrowMeter.ApplyGrant | sdk-python/obsvr/escrow.py:41-69 | the whole new state for every kind of share and epoch |
| Escrow.EscrowMeter.ApplyResponse | sdk-python/obsvr/escrow.py:72-91 | the whole new state, absent rules dropped |
| Escrow.EscrowMeter.Spend | sdk-python/obsvr/escrow.py:94-109 | the whole new state and the decision |
| Escrow.EscrowMeter.Peek | sdk-python/obsvr/escrow.py:112-124 | the decision, with nothing changed |
| Escrow.EscrowMeter.SnapshotConsumption | sdk-python/obsvr/escrow.py:127-136 | consumption and epoch of every live rule |
| Escrow.PeekPredictsSpend | sdk-python/obsvr/escrow.py:94-124 | a peek predicts the next spend |
| Escrow.ResponseIsSteps | sdk-python/obsvr/escrow.py:72-91 | a response is a drop of the absent rules followed by its grants |
| Escrow.ShareSplit | sdk-python/obsvr/escrow.py:41-109 | in every interleaving, remaining + consumed = the floored share, both non-negative |
| Escrow.SharesConserved | sdk-python/obsvr/escrow.py:41-109 | in every interleaving, shares accepted = spent + left + given up unspent |
| Escrow.FleetNeverOverspends | sdk-python/obsvr/escrow.py:41-109 | any number of instances together spend at most the shares they accepted |
| Escrow.SpendsWithinShare | sdk-python/obsvr/escrow.py:41-109 | from an accepted grant until the next, in every interleaving, a spend is allowed exactly while fewer than the floored share have been, and says how many are left |
| Escrow.FirstSpends | sdk-python/obsvr/escrow.py:41-124 | of the spends in a row after an accepted grant, exactly the first ones are allowed, as many as the floored share |
| Escrow.EpochAndCounter | sdk-python/obsvr/escrow.py:41-109 | a live rule's epoch rises exactly when a grant is accepted, and until then the counter counts its spends |
| Escrow.SnapshotMisses | sdk-python/obsvr/escrow.py:127-136 | from an accepted grant on, a snapshot reports that grant's epoch and the spends so far, and reports all spends up to the next accepted grant exactly when none comes after it |
| Escrow.ReplayIgnored | sdk-python/obsvr/escrow.py:41-69 | a grant is never accepted twice while its rule stays live |
| Escrow.DroppedForgetsEpoch | sdk-python/obsvr/escrow.py:72-91 | a run in which a dropped rule accepts the same grant again |
| StrippedText.StripIdempotent | sdk-python/obsvr/policy_template_v1.py:26-29 | stripping twice is stripping once |
| StrippedText.StripMeaning | sdk-python/obsvr/policy_template_v1.py:26-29 | only whitespace goes, and none is left at the ends |
| PolicyTemplate.ValidateJson | sdk-python/obsvr/policy_template_v1.py:42-67 | with one shared counter and failing at the first fault, it accepts exactly the well-formed values whose nodes fit in what is left of the bound |
| PolicyTemplate.ValidateItems | sdk-python/obsvr/policy_template_v1.py:55-66 | the same for the items or fields of one value |
| PolicyTemplate.BoundAreLeaves | sdk-python/obsvr/policy_template_v1.py:110-119 | every accepted parameter value is a single node that validates anywhere |
| PolicyTemplate.ParametersBuilt | sdk-python/obsvr/policy_template_v1.py:70-103 | parameters are accepted exactly when each is and no two trimmed names are equal, and are declared under those names with trimmed values |
| PolicyTemplate.BoundAsSupplied | sdk-python/obsvr/policy_template_v1.py:110-119 | each declared parameter is bound to the value supplied for it, texts without their outer whitespace |
| PolicyTemplate.ValidExactly | sdk-python/obsvr/policy_template_v1.py:42-67 | a value is valid exactly when it has at most 4096 nodes, none more than 16 levels down, and each is within its own bounds |
| PolicyTemplate.RenderComplete | sdk-python/obsvr/policy_template_v1.py:122-132 | rendering succeeds exactly when every placeholder is declared; the result has no placeholder, no more nodes, no more depth, and stays well-formed |
| PolicyTemplate.RenderFixed | sdk-python/obsvr/policy_template_v1.py:122-132 | rendering a value without placeholders changes nothing |
| PolicyTemplate.RenderedAt | sdk-python/obsvr/policy_template_v1.py:122-132 | at every place of the template: the bound value where a placeholder stood, and the same node everywhere else |
| PolicyTemplate.RenderTemplate | sdk-python/obsvr/policy_template_v1.py:135-152 | exactly when it refuses, what it returns, and that the second validation cannot fail |
| ControlExpression.SplitMeaning | sdk-python/obsvr/control_expression_v2.py:68-72 | splitting a path loses nothing and leaves no dot in a part |
| ControlExpression.SplitJoin | sdk-python/obsvr/control_expression_v2.py:68-72 | dot-free parts are what their joined form splits into |
| ControlExpression.PathParts | sdk-python/obsvr/control_expression_v2.py:66-76 | exactly which lists of parts make up an accepted path |
| ControlExpression.ResolvePath | sdk-python/obsvr/control_expression_v2.py:113-119 | the loop finds what the document holds at the path, or nothing |
| ControlExpression.Visitor.Visit | sdk-python/obsvr/control_expression_v2.py:45-108 | failing at the first fault with one shared counter accepts exactly the well-formed trees within both bounds, and returns an equal tree |
| ControlExpression.Visitor.VisitAll | sdk-python/obsvr/control_expression_v2.py:108-108 | the same for the members of a group together |
| ControlExpression.Validate | sdk-python/obsvr/control_expression_v2.py:41-110 | accepts exactly the well-formed trees of at most 128 nodes and depth at most 12, unchanged |
| ControlExpression.BoundsInNumbers | sdk-python/obsvr/control_expression_v2.py:29-108 | the bounds on groups, lists and texts, in numbers |
| ControlExpression.Evaluate | sdk-python/obsvr/control_expression_v2.py:131-173 | a verdict on every accepted tree and document, and none on any other tree |
| ControlExpression.DeMorgan | sdk-python/obsvr/control_expression_v2.py:135-141 | both of De Morgan's laws over `all`, `any` and `not` |
| ControlExpression.OrderFree | sdk-python/obsvr/control_expression_v2.py:135-141 | reordering or repeating members at any depth changes no verdict |
| ControlExpression.NotEqualsNegates | sdk-python/obsvr/control_expression_v2.py:143-153 | `not_equals` is the negation of `equals` exactly when the document has the path |
| ControlExpression.LessNegates | sdk-python/obsvr/control_expression_v2.py:143-168 | `less_than` is the negation of `greater_than_or_equal` exactly on numbers other than NaN |
| ControlExpression.EqualityVerdicts | sdk-python/obsvr/control_expression_v2.py:122-151 | `equals` and `not_equals` on the value found: the same kind of scalar with the same value, or not |
| ControlExpression.OrderVerdicts | sdk-python/obsvr/control_expression_v2.py:154-166 | the four orderings on the value found, infinities and NaN included; false on anything but numbers |
| ControlExpression.TextVerdicts | sdk-python/obsvr/control_expression_v2.py:149-168 | `contains` and `matches` on the value found |
| ControlExpression.MembershipVerdict | sdk-python/obsvr/control_expression_v2.py:152-153 | `in` holds exactly when the value found equals one of those listed |
| ControlExpression.ExistsVerdict | sdk-python/obsvr/control_expression_v2.py:143-145 | `exists` holds exactly when the document has the path |
| ControlExpression.PathsDecide | sdk-python/obsvr/control_expression_v2.py:113-173 | documents that agree on the named paths get the same verdict |
| ControlExpression.WriteElsewhere | sdk-python/obsvr/control_expression_v2.py:113-119 | writing at one path changes nothing at a path that neither leads through it nor lies below it |
| ControlExpression.UnnamedIgnored | sdk-python/obsvr/control_expression_v2.py:113-173 | writing where no named path leads changes no verdict |
| StableSort.SortIsStable | sdk-python/obsvr/coverage_attestation.py:177-182 | sorting by a text key orders, permutes, and keeps the order of equal keys |
| StableSort.SortsTo | sdk-python/obsvr/coverage_attestation.py:177-182 | an ordered list is the result of sorting exactly the lists that agree with it key by key |
| CoverageBindings.UniqueTextsFixed | sdk-python/obsvr/coverage_attestation.py:88-94 | a cleaned list of texts is cleaned to itself |
| CoverageBindings.NormalFixed | sdk-python/obsvr/coverage_attestation.py:143-166 | a normalised binding is normalised to itself |
| CoverageBindings.BindingAccepted | sdk-python/obsvr/coverage_attestation.py:143-166 | exactly which entries are accepted, and their normal form |
| CoverageBindings.RegroupBindings | sdk-python/obsvr/coverage_attestation.py:297-314 | the loop rebuilds the two-level snapshot, later entries replacing earlier ones in place |
| CoverageBindings.RegroupedMeaning | sdk-python/obsvr/coverage_attestation.py:297-314 | regrouping collapses repeated pairs and otherwise only reorders; it keeps the length exactly when pairs are distinct |
| CoverageBindings.TiesExactly | sdk-python/obsvr/coverage_attestation.py:297-314 | regrouping sorts back to a list exactly when its pairs are distinct and ties follow the first appearance of their integrations |
| CoverageBindings.FlattenExactly | sdk-python/obsvr/coverage_attestation.py:169-182 | a list of bindings is reproduced exactly when it is normalised, bounded, in order, with distinct pairs and ties that follow |
| CoverageBindings.FlattenedMembers | sdk-python/obsvr/coverage_attestation.py:169-182 | a flattened snapshot holds exactly its entries, normalised |
| CoverageBindings.SnapshotSize | sdk-python/obsvr/coverage_attestation.py:169-182 | a snapshot of valid entries is refused exactly when it has more than 256 |
| CoverageBindings.DistinctKeysKeep | sdk-python/obsvr/coverage_attestation.py:176-182 | distinct sort keys leave no ties to keep |
| CoverageBindings.PlainSymbolsDistinct | sdk-python/obsvr/coverage_attestation.py:176-182 | distinct pairs with symbols free of NUL have distinct sort keys |
| CoverageBindings.NulBreaksOrder | sdk-python/obsvr/coverage_attestation.py:169-182 | a snapshot of distinct clean pairs whose ties do not follow |
| CoverageAttestation.BuildRequirements | sdk-python/obsvr/coverage_attestation.py:104-140 | the loop, sort and duplicate test give the normalised requirements or refuse |
| CoverageAttestation.RequirementsFixed | sdk-python/obsvr/coverage_attestation.py:104-140 | normalised requirements are normalised to themselves |
| CoverageAttestation.RequirementsAccepted | sdk-python/obsvr/coverage_attestation.py:104-140 | requirements are accepted exactly when there are at most 256, each is accepted, and no two are equal once normalised |
| CoverageAttestation.RequirementAccepted | sdk-python/obsvr/coverage_attestation.py:104-124 | exactly which requirement is accepted, and its normal form |
| CoverageAttestation.RequirementsListed | sdk-python/obsvr/coverage_attestation.py:125-134 | accepted requirements are listed by integration and then by depth, where names hold no NUL |
| CoverageAttestation.CoverageFailures | sdk-python/obsvr/coverage_attestation.py:185-232 | the nested loops derive the failures that NoFailures describes |
| CoverageAttestation.MetExactly | sdk-python/obsvr/coverage_attestation.py:189-224 | one requirement yields no failure exactly when its symbols, or all and at least one of its integration's symbols, are bound deeply enough |
| CoverageAttestation.NoFailures | sdk-python/obsvr/coverage_attestation.py:185-232 | there is no failure exactly when every requirement is met |
| CoverageAttestation.ReasonsExactly | sdk-python/obsvr/coverage_attestation.py:205-224 | which reason and which actual depth a failing symbol gets |
| CoverageAttestation.FailureMembers | sdk-python/obsvr/coverage_attestation.py:185-232 | exactly the failures of some requirement are reported |
| CoverageAttestation.FailuresListed | sdk-python/obsvr/coverage_attestation.py:226-232 | failures are listed by integration, symbol and reason, where names hold no NUL |
| CoverageAttestation.MetBySnapshot | sdk-python/obsvr/coverage_attestation.py:143-232 | a requirement is met exactly when the snapshot's entries meet it as reported: bound, at `enforce` where `enforce` is asked for, at either depth where `observe` is |
| CoverageAttestation.BuildBody | sdk-python/obsvr/coverage_attestation.py:257-287 | builds the body with its derived fields, or refuses |
| CoverageAttestation.HeaderAccepted | sdk-python/obsvr/coverage_attestation.py:257-287 | exactly which headers are accepted, and their normal form |
| CoverageAttestation.HashesAccepted | sdk-python/obsvr/coverage_attestation.py:97-101 | exactly which pack hashes are accepted, and the set they become |
| CoverageAttestation.Canonicalize | sdk-python/obsvr/coverage_attestation.py:290-318 | with canonical JSON that tells bodies apart, accepts exactly the bodies that rebuild to themselves |
| CoverageAttestation.RebuildExactly | sdk-python/obsvr/coverage_attestation.py:290-318 | a body rebuilds to itself exactly when each part is normalised, pairs are distinct, ties follow, and its derived fields are the derived ones |
| CoverageAttestation.BuiltFixpoint | sdk-python/obsvr/coverage_attestation.py:257-318 | a built body is accepted exactly when its pairs are distinct and, of two bindings with one sort key, the earlier belongs to an integration that appears earlier |
| CoverageAttestation.PlainFixpoint | sdk-python/obsvr/coverage_attestation.py:257-318 | so is every built body with distinct pairs and symbols free of NUL |
| CoverageAttestation.SnapshotFixpoint | sdk-python/obsvr/coverage_attestation.py:169-318 | every body built from a snapshot with distinct trimmed pairs and no NUL in its trimmed symbols is accepted, and none is without distinct trimmed pairs |
| CoverageAttestation.TiedRejected | sdk-python/obsvr/coverage_attestation.py:257-318 | a snapshot of distinct pairs none of whose built bodies is accepted |
| CoverageAttestation.AcceptedDerived | sdk-python/obsvr/coverage_attestation.py:185-318 | an accepted body has distinct pairs, exactly the derived failures, and is complete exactly when every requirement is met |
| LoopDetection.LoopDetector.RecordIteration | sdk-python/obsvr/agent_policy.py:138-147 | never over-reports, and with a clock that has not gone back fires exactly when the complete history overfills the window, with its count |
| LoopDetection.LoopDetector.GetIterationCount | sdk-python/obsvr/agent_policy.py:149-153 | the same count without recording |
| LoopDetection.LoopDetector.Clear | sdk-python/obsvr/agent_policy.py:155-156 | forgets every iteration, kept or not |
| LoopDetection.KeptAndPruned | sdk-python/obsvr/agent_policy.py:138-153 | whatever the clock does, kept and pruned iterations together make up the history in every window |
| LoopDetection.PrunedExact | sdk-python/obsvr/agent_policy.py:138-153 | the pruned count is the full count exactly when no recorded time in the present window was out of the window at an earlier reading since |
| LoopDetection.KeptMeaning | sdk-python/obsvr/agent_policy.py:138-153 | what is kept is what has stayed in every window since it was recorded |
| LoopDetection.SteadyClock | sdk-python/obsvr/agent_policy.py:138-153 | a reading not before any earlier one makes pruning invisible |
| LoopDetection.ClockBackMisses | sdk-python/obsvr/agent_policy.py:138-153 | a run with a clock that goes back in which the two counts differ |
| PolicyLog.PolicyLog.SnapshotPolicy | sdk-python/obsvr/policy_log.py:46-69 | the tenant's history gains the snapshot, that of every other tenant stays, and each buffer is its history's last 100 |
| PolicyLog.TenantsApart | sdk-python/obsvr/policy_log.py:46-61 | two tenants share a buffer exactly when they give the same name, or none, the empty or the reserved one |
| PolicyLog.Search | sdk-python/obsvr/policy_log.py:83-92 | the binary search returns only snapshots at or before the time, and the last one when no later snapshot comes before an earlier one |
| PolicyLog.PolicyLog.GetPolicyAtTime | sdk-python/obsvr/policy_log.py:72-92 | the answer depends on the tenant's history alone: as the full history whenever a retained snapshot is old enough, and nothing only when every retained one is later |
| PolicyLog.EvictedAnswer | sdk-python/obsvr/policy_log.py:46-92 | exactly when the full history has an answer that the buffer no longer has |
| PolicyLog.OrderedDivided | sdk-python/obsvr/policy_log.py:72-92 | the search's condition holds at every time exactly when the snapshots are in time order |
| PolicyLog.UndividedMisses | sdk-python/obsvr/policy_log.py:72-92 | two snapshots out of order of which the search misses one |

## Left out

- SHA-256, HMAC, Ed25519, canonical JSON, UTF-8, regular expressions and their guard, `str.lower` and `str.isalnum` are parameters; `_canonical_json_for_hash` is not part of this model.
- Error messages: a refusal is `None`, a fault kind, or an outcome, without its text.
- Feed errors and the exceptions they count, and the SDK version, in the streaming verifier: the model's `clean` is the one of a run without exceptions.
- Session ids that are present and not text, which the batch verifier files under their Python text.
- Network, console and command line around the batch verifier, and the lost-event markers it reports.
- Text hashed by the chain is its UTF-8 bytes, shorter than 2^64 of them; that hashed bytes are UTF-8 is not modelled.
- NFKC, percent, hex and ROT13 views, the printable-ratio gate, input truncation, and the linear-time claim for the HTML scanner; its termination is proved.
- Shifts and masks of six-bit values in the base64 decoder are written as arithmetic.
- Field names of intent documents are a datatype with an `Unsupported` case; result hashes, the canonical-JSON size of a context and its digest are parameters or absent. Unpaired surrogates cannot occur in a `char`.
- Built intent documents keep sets until they are written out in order.
- Which check of `configure` raises, directory creation, permissions, symbolic links, `mark_replayed`, leftover temporary files, and the JSON content of an outbox record; fresh record ids (clock and UUID) are an assumption of a run.
- Floating-point rounding: escrow shares and epochs, clock readings and document numbers are exact; NaN and the infinities are modelled where the program tests for them or can meet them.
- Escrow.EscrowMeter.ApplyResponse: does not model another thread between its critical sections; runs of steps do, through Escrow.ResponseIsSteps.
- The service that grants escrow shares: grants simply arrive.
- Policy template schema, id, version, hash and signature fields; enum values are given as a set, so the bound on their number is on distinct ones.
- Coverage attestation fields of the wrong JSON type and unknown fields, both of which are refused; the signature envelope; the process-wide binding report, which is the snapshot parameter.
- PolicyLog.Search: does not state exactly on which unordered buffers the search is right at a given time, because that is no simpler than following its probes, which the contract also gives.
- Policy-changed events and rule diffs, step limits, delegation tracking, and the events that a loop detector's caller emits: one branch or table each.
- Injection-session decay, percentiles and other floating-point scoring; OpenTelemetry and CloudEvents projections; configuration checks and static tables.
