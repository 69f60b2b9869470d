# Identity, copy and recovery protocols

This project models the parts of the application that decide about files, identities and
logins by an algorithm or a protocol, and proves what those parts are for.

- **Canonical JSON and its size arithmetic.** Values are an inductive datatype whose strings are
  sequences of code points and whose objects are lists of members. `JsonValue` holds the printer
  and the size functions, `JsonDecode` a reader. `JsonGrammar` states, in the characters of
  RFC 8259 and without reference to either, which texts write which values; `JsonReading` proves
  the reader exact for it, `JsonShortest` the printer the shortest, `JsonRoundTrip` the round trip.
  `PlanScanner` walks raw text without building values, `WireSize` holds the two size functions of
  values and the fragment emitter, `JsonLoad` the guarded decoder, `RecoveryPlan` the reservation
  arithmetic of a plan, `PlanContents` what the signed text of a plan says.
- **Copying a file under an intent marker** (`CopyProtocol`, `CopySteps`, `CopyGuarantees`):
  a state machine over a directory, with any number of attempts, outsiders acting between any two
  steps, and a failure or a crash possible at every step. Inode numbers are reused once nothing
  links or holds the inode. `QuietCopy` runs an attempt that nothing disturbs, `CopyRemoval` the
  removal of an entry under every combination of failures, `CopyOutcomes` says where each failure
  leads.
- **The append-only identity ledger** (`Ledger`): the writers with their compare-and-swap, and the
  replay that decides which histories are legal. `LedgerBook` is what writers and readback amount
  to, `LedgerRules` what makes a history legal, each event told from those before it. `Graph` is
  the topological cycle check it uses.
- **Closures and searches over identities**: `Selection` (which owners an inventory covers, with
  `SelectionReach` for what that is in terms of paths over the tables),
  `RetainedReferences` (effects against the references of other owners), `LocationWitness`
  (roles below an absent directory), with the path notions in `Paths`.
- **Claim transitions** (`Claims`): which native objects may appear in the next proof set;
  `ClaimRules` tells the moves, absences and completeness the code decides.
- **Bencode and torrent identity** (`Bencode`, `Torrent`) and the **login throttle**
  (`LoginThrottle`).

A function or predicate that serves as specification has a second account of what it computes,
told in other terms: a grammar, a simpler machine, paths, a table by phase, or the literal names
and bounds the program uses. The lemmas that connect the two run both ways.

`Text` and `Decimal` hold what these share: code point order, sorting by key, decimal numerals.

Operations that the program performs by updating variables or fields are methods and classes
with loops; each is proved against a specification function or predicate, and the properties are
lemmas about those. Hashes, snapshots, observations of the file system and the outcome of
checks that are not modelled are parameters, quantified over.

Where the code and the standard or the description it follows part ways, the model follows the
code and states the exact difference:

- `Bencode`: the BEP 3 specification asks for sorted dictionary keys; the skipper does not.
  `Bencode.UnsortedAccepted` gives an accepted input with unsorted keys, `Bencode.StrictMeaning`
  says exactly which accepted inputs are BEP 3 encodings. The torrent reader does check the order
  of the two dictionaries whose keys it reads.
- `LoginThrottle`: waiting for the advertised time always expires the oldest failure, but lets the
  client in for certain only when exactly the limit is held. `LoginThrottle.FreedExactly` says
  exactly when it does, `LoginThrottle.WaitMayNotFree` gives a refused client.
- `CopyProtocol`: a source above the fingerprint bound is copied without being read back, so its
  copy may differ from it. `CopyProtocol.Proven` carries that exception, `QuietCopy.Completes`
  exhibits it and `QuietCopy.Verified` says that it is the only one.
- `Claims`: a deletion that is discarding accepts the loss of a link whether or not its artifact
  was there to hold one. `Claims.LossWithoutDiscard` gives an accepted chain with one discard and
  two losses, `Claims.LossIsDiscard` and `Claims.AccountedExactly` say when a loss is a discard.
- `WireSize.SuccessorSize`: the ledger's size function never charges an empty string, so it alone
  is accepted without room for its two quotes.
- `LocationWitness`: the root path splits into as many parts as its own entries, so sorting by
  depth does not put it first (`Paths.RootIsNotShallower`); the check is met because the root is
  never observed absent, its path having no component to miss
  (`app/file_identity_recovery.py`, lines 4817-4846).

## Model

| member | source | states |
|---|---|---|
| JsonRoundTrip.CanonicalRoundTrip | app/file_identity_recovery.py:3952-3956 | the canonical text of every value with distinct keys, free of surrogates and NUL and within the bounds on nesting and collections, decodes by the rules of RFC 8259 to the same value with its members sorted; integers may be of any size |
| JsonRoundTrip.CanonicalTextDecides | app/file_identity_recovery.py:259-270 | two values in the domain have the same canonical text exactly when they are the same value, member order aside |
| JsonReading.DecodeExactly | app/file_identity_recovery.py:3689-3825 | a text decodes to a value exactly when it writes it by the grammar of RFC 8259: any space between tokens, any escape of a character in digits of either case, `-0`, any order of members |
| JsonShortest.EmitShortest | app/file_identity_recovery.py:231-256 | the printed text of a value is, of all its writings without spaces, in printable ASCII and lower-case digits, the only shortest one |
| JsonRoundTrip.CanonicalExactly | app/file_identity_recovery.py:3952-3956 | a text is the canonical text of a value exactly when it is the shortest such writing of the same value with its keys rising |
| Text.LessMeans | app/file_identity_recovery.py:236 | keys and paths are compared by code points: the text that ends first, or has the smaller character at the first difference, comes first |
| JsonRoundTrip.EmitRoundTrip | app/file_identity_recovery.py:3689-3825 | reading back what was printed consumes exactly the printed text, whatever follows it |
| JsonRoundTrip.NormInDomain | app/file_identity_recovery.py:3764-3825 | sorting the members neither leaves nor enters the scanner's domain: a value is in it exactly when its sorted form is |
| JsonRoundTrip.DomainInBounds | app/file_identity_recovery.py:3897-3949 | everything in the scanner's domain is within the bounds of the size function |
| JsonFacts.EncodeLength | app/file_identity_recovery.py:3897-3949 | the size function is the length of the canonical text |
| JsonFacts.EmbeddedLength | app/file_identity_recovery.py:3736-3749 | the overhead is exactly what the canonical text gains when it is embedded again as a JSON string, less its quotes |
| JsonFacts.SameIffNorm | app/file_identity_recovery.py:231-256 | two objects are the same whatever their member order exactly when they agree once sorted |
| PlanScanner.Scanner.UnicodeEscape | app/file_identity_recovery.py:3757-3762 | reading digit by digit finds the number that the reader of RFC 8259 finds in the next four characters, or refuses where it does, and moves on by four either way |
| PlanScanner.Scanner.Character | app/file_identity_recovery.py:3703-3750 | reads the same character as the reader of RFC 8259, surrogate pairs included, or stops where that reader fails |
| PlanScanner.Scanner.String | app/file_identity_recovery.py:3689-3755 | measures the decoded string, or refuses one that does not decode, is outside the domain or is too large |
| PlanScanner.Scanner.Value | app/file_identity_recovery.py:3764-3825 | the measures it returns are those of the value that RFC 8259 decoding yields, and it refuses only for a reason |
| PlanScanner.Scanner.Items | app/file_identity_recovery.py:3784-3807 | the same for the rest of an array, with the count and the running sizes |
| PlanScanner.Scanner.Members | app/file_identity_recovery.py:3784-3807 | the same for the rest of an object, with duplicate keys refused |
| PlanScanner.Scanner.Scan | app/file_identity_recovery.py:3827-3836 | accepts exactly the texts of bounded length that decode to a value in the domain whose size fits, records the sizes of a top-level object's members, and returns the two sizes |
| PlanScanner.AcceptsExactly | app/file_identity_recovery.py:3764-3836 | accepted are exactly the texts of at most 16 MiB that write, by the grammar, a value of the domain whose canonical text, quoted again if so asked, is no longer than the limit |
| PlanScanner.DomainEdges | app/file_identity_recovery.py:3764-3836 | the domain ends where the code's numbers say: 32 containers around each other, 10000 items, 64 characters in a key, signed 64-bit integers, no NUL and no half of a surrogate pair |
| PlanScanner.BoundsEdges | app/file_identity_recovery.py:3897-3949 | the size function's bounds have the same edges but for integers and keys, which it does not limit |
| PlanScanner.ScanPredicts | app/file_identity_recovery.py:3827-3836 | what it returns is the length of the canonical text and what that text gains when embedded, so that plain, escapes and the two quotes add up to the embedded length |
| PlanScanner.CanonicalAccepted | app/file_identity_recovery.py:3764-3836 | the canonical text of a value in the domain is accepted exactly when it fits, and decodes back to that value |
| WireSize.WireSize | app/file_identity_recovery.py:3897-3949 | succeeds exactly when the value is within bounds and its canonical text fits the remaining budget, and returns the length of that text |
| WireSize.SuccessorSize | app/file_identity_store.py:240-287 | returns the same number, and succeeds for the same budgets except that an empty string needs no room |
| WireSize.FragmentsFlatten | app/file_identity_recovery.py:231-256 | the fragments, strings cut into pieces of 4096 characters, join to the canonical text |
| WireSize.ChunksCut | app/file_identity_recovery.py:251-254 | each piece of a string holds the next 4096 characters, the last one what is left |
| WireSize.PlanEncode | app/file_identity_recovery.py:259-270 | emits exactly the canonical text of whatever is within bounds; the guards against emitting more or less than predicted never fire |
| WireSize.PlanHash | app/file_identity_recovery.py:273-284 | digests exactly the canonical text, and its guards never fire |
| JsonLoad.CheckGuards | app/file_identity_recovery.py:3968-3992 | the one-pass count of open containers decides the recursive guard on the text |
| JsonLoad.GuardsExactly | app/file_identity_recovery.py:3968-3992 | a text that decodes passes the count of brackets and commas exactly when no more than 32 containers enclose each other and none has more than 10000 entries |
| JsonLoad.Utf8Counts | app/file_identity_recovery.py:3963-3967 | the bytes counted are those of the text in UTF-8 |
| JsonLoad.DomainPassesGuards | app/file_identity_recovery.py:3968-3992 | every text that decodes into the domain passes the guard on containers |
| JsonLoad.Load | app/file_identity_recovery.py:3959-4000 | decodes exactly the texts without NUL and surrogates whose UTF-8 bytes, containers and canonical text are within bounds |
| JsonLoad.PlanInput | app/file_identity_recovery.py:3839-3841 | what the scanner accepts is decoded exactly when its raw UTF-8 bytes fit, which the scanner does not check |
| RecoveryPlan.ReservationExact | app/file_identity_recovery.py:3589-3641 | the size of the finished plan is exactly the size of the empty wrapper plus what each part was charged |
| RecoveryPlan.ProjectionSize | app/file_identity_recovery.py:3349-3425 | the running size of the projected records is their exact size, refused exactly when out of bounds or budget |
| RecoveryPlan.Preflight | app/file_identity_recovery.py:3629-3638 | reserves for a document exactly what its canonical text will take when embedded |
| RecoveryPlan.Select | app/file_identity_recovery.py:3602-3625 | the charge read off the scanner's record is the size of the decoded decisions and of the embedded epoch bindings |
| RecoveryPlan.BuildRecoveryPlan | app/file_identity_recovery.py:3582-3658 | builds a plan of exactly the admissible submissions; the byte-bound check of the finished plan cannot fail |
| PlanContents.SelectionExactly | app/file_identity_recovery.py:3602-3625 | a selection is accepted exactly when it has the four members, version 1 or 2 and the digest of the inventory, and its parts are what those members hold |
| PlanContents.SignedReadsBack | app/file_identity_recovery.py:3639-3657 | the text whose digest signs the plan reads back, under its six names, as the version, inventory and decisions submitted and as documents that decode to the declaration, receipt and epoch bindings submitted |
| PlanContents.FinishedSize | app/file_identity_recovery.py:3641-3651 | the plan checked with zeros in the place of its digest is as long as with the digest |
| PlanContents.ProjectionIsList | app/file_identity_recovery.py:3349-3425 | what is charged for the projected records is the canonical text of their list and the suffixes of their paths, and nothing when there are none |
| CopySteps.StepKeeps | app/chapter_provenance.py:319-565 | every step of every attempt or outsider, failing or not, keeps the protocol's invariant |
| CopySteps.RunKeeps | app/chapter_provenance.py:268-300 | so does every run |
| CopyGuarantees.PendingWhileUnproven | app/chapter_provenance.py:371-440 | in every run, while some name leads to an attempt's file whose bytes are not verified and synced, the pending marker of that attempt is in place |
| CopyGuarantees.OneHolder | app/chapter_provenance.py:319-368 | two attempts are never both between creating their marker and capturing it again |
| CopyGuarantees.OthersLeaveMarker | app/chapter_provenance.py:136-157 | while an attempt holds its marker no step of anyone else moves it, so a refused attempt never retires another's marker |
| CopyGuarantees.ReturnedMeans | app/chapter_provenance.py:136-157 | an attempt that ends well has taken away its own marker, and the file it leaves is synced and, within the bound, equal to the bytes read from an unchanged source |
| CopyGuarantees.StuckForever | app/chapter_provenance.py:308-316 | once an attempt crashes or gives up while holding its marker, the marker stays for good, so the destination stays blocked |
| CopyGuarantees.StepTraces | app/chapter_provenance.py:453-565 | a step of an attempt unlinks for good only an inode that it made and still holds; every other entry stays, or is in a carrier whose receipt names its origin, or is back under that name, which was free |
| CopyGuarantees.ForeignSurvives | app/chapter_provenance.py:453-565 | over any run the attempts lose no file of anyone else's: unless outsiders remove it, it keeps a name or is in a carrier with its receipt |
| CopySteps.DecideOk | app/chapter_provenance.py:515-525 | a captured entry that is unlinked is the very inode expected and held, although the code compares numbers, because a held number is not reused |
| CopySteps.OpenForHashOk | app/chapter_provenance.py:415-418 | a file opened by name whose number is that of the created file is the created file |
| CopyRemoval.RemovalExactly | app/chapter_provenance.py:453-565 | for every combination of failures of its operations, the exact state a removal ends in: the entry is unlinked exactly when it is the inode the attempt made and holds, is otherwise back under its name or, when putting it back fails, in the carrier with its receipt |
| CopyRemoval.RestoreReturns | app/chapter_provenance.py:531-548 | from any sound state, putting back links the captured inode at the name it came from exactly when it succeeds and the name is free; otherwise the entry and its receipt stay in the carrier |
| CopyRemoval.ForeignGoesHome | app/chapter_provenance.py:515-548 | a removal that meets someone else's entry leaves every name as it was, and after a rollback the marker in place |
| CopyOutcomes.ReplacementReturned | app/chapter_provenance.py:411-440 | when the destination was replaced during the copy, the comparison notices, and after the rollback the replacement is where it was and the marker is still in place |
| CopyOutcomes.CompareNotices | app/chapter_provenance.py:411-414 | the comparison passes exactly when the destination is the very file the attempt made |
| CopyOutcomes.HashNotices | app/chapter_provenance.py:415-421 | reading back passes exactly when the file read is the one the attempt made, is still at the destination and holds the bytes read |
| CopyOutcomes.WritesNotice | app/chapter_provenance.py:398-410 | a source that grows, shrinks or changes sends the copy to its rollback |
| CopyOutcomes.FailureUndone | app/chapter_provenance.py:429-440 | whatever fails between the first byte and the conclusion, or is settled against, after an undisturbed rollback and retirement exactly the copy and the marker are gone and everything is closed |
| CopyOutcomes.EarlyFailureUndone | app/chapter_provenance.py:429-432 | a marker that cannot be synced or a file that cannot be created or exists already: after retirement exactly the marker is gone |
| CopyOutcomes.ConcludedKept | app/chapter_provenance.py:354-368 | a copy that concludes, or is deferred and then kept, loses its marker and keeps its file |
| CopyOutcomes.LeftForReview | app/chapter_provenance.py:357-368 | a marker or a file that cannot be identified is left where it is, with its descriptor closed |
| CopyOutcomes.BarrierPlaced | app/chapter_provenance.py:112-157 | an attempt that lost its marker without sealing its end puts a barrier at the intent name wherever that is free, and has not ended well |
| CopyOutcomes.CrashIsFinal | app/chapter_provenance.py:290-300 | a crash closes the descriptors, leaves every name, byte and carrier, and nobody revives the attempt |
| QuietCopy.Completes | app/chapter_provenance.py:371-440 | alone and without failures, in any directory where its names are free and for a source read in any chunks, the attempt adds exactly its file, leaves no marker and closes everything; above the bound also when the stored bytes differ |
| QuietCopy.Verified | app/chapter_provenance.py:411-422 | verification passes exactly when the stored bytes are those read or the source is above the bound; otherwise the copy is rolled back |
| Graph.CheckAcyclic | app/file_identity_store.py:1996-2014 | accepts exactly the graphs whose children are declared and that have no cycle; acceptance yields a topological order, refusal of a declared graph a cycle; duplicate edges are allowed |
| Graph.CountIncoming | app/file_identity_store.py:1998-2003 | refuses exactly an undeclared child and counts incoming edges with multiplicity |
| Graph.OrderForbidsCycles | app/file_identity_store.py:2004-2014 | a topological order excludes every cycle |
| Graph.StuckHasCycle | app/file_identity_store.py:2013-2014 | nodes that are never ready contain a cycle |
| Ledger.Store.PrepareSet | app/file_identity_store.py:2472-2506 | the new tables are those of the specification and every history stays legal; an event is returned exactly on success |
| Ledger.Store.ActivateSet | app/file_identity_store.py:2554-2573 | the same for an activation |
| Ledger.Store.ReadActive | app/file_identity_store.py:2576-2683 | on a written ledger returns the proof activated last and its event, unless something was prepared since or it is no longer current |
| Ledger.ReadBack | app/file_identity_store.py:2576-2683 | on every legal history, capability events included, no check of the tables fails: the readback fails only when the newest event is neither an activation nor a namespace's capability of one, or is no longer current |
| LedgerBook.TablesKeepBook | app/file_identity_store.py:2445-2683 | after any calls of any owners in any order the tables admit exactly the calls, and reading them yields exactly the answers, of a book that holds each owner's newest entry and the names used |
| LedgerBook.PreparedThenActive | app/file_identity_store.py:2472-2683 | a set just prepared does not read as active; activating it next succeeds, and it is what is read then, as long as it is current |
| LedgerBook.ActiveExactly | app/file_identity_store.py:2576-2683 | in every legal history an owner reads as active exactly through the activation that its last event is or, in a namespace, names, by a grant or a revocation alike |
| Ledger.CallKeeps | app/file_identity_store.py:2445-2573 | each call of a writer keeps the history of every owner legal |
| Ledger.EveryHistoryLegal | app/file_identity_consumers.py:2952-3078 | whatever calls come in whatever order, the replay finds contiguous revisions, right predecessors, acyclic prior sets, and every activation directly after its own preparation |
| Ledger.AtMostOneSucceeds | app/file_identity_store.py:2434-2442 | of two calls for one owner that expect the same newest event at most one succeeds, whatever happens between them |
| Ledger.CheckPriors | app/file_identity_consumers.py:2957-2998 | accepts exactly when the owner's prior sets are known and form no cycle |
| Ledger.Validate | app/file_identity_consumers.py:2999-3078 | the replay with its table of seen events and of capabilities accepts exactly the legal histories |
| LedgerRules.LegalExactly | app/file_identity_consumers.py:2999-3179 | a history is legal exactly when its prior sets are and each event may follow those before it: a set is prepared once after the set before it, activated directly after its preparation, granted directly after its activation on its own terms, and revoked once, on the grant's |
| Ledger.Replays | app/file_identity_consumers.py:3005-3007 | the replay reads exactly the owner's own events |
| Ledger.SortsByRevision | app/file_identity_consumers.py:3005-3007 | and reads each of them once, by rising revision |
| Ledger.EpochGrantedOnce | app/file_identity_consumers.py:3105-3179 | in a legal history an epoch has no capability event, one grant directly after the activation it names, or that grant and one revocation repeating its binding; it is never granted again |
| Selection.Select | app/file_identity_consumers.py:3610-3658 | the loop ends and chooses the least set that holds its seeds and is closed under links, dependencies, edges both ways and series, or refuses because some owner of every such set does not replay |
| SelectionReach.LeastIsReached | app/file_identity_consumers.py:3610-3658 | the least closed set is what the seeds reach by single steps: from an owner to its history and back while it lives, along a row of the ledger, a dependency, an edge either way, and through a series |
| SelectionReach.RefusalReached | app/file_identity_consumers.py:3638-3648 | a refusal means that the seeds reach a history that does not replay or a live owner whose flag is wrong |
| SelectionReach.LedgerEdgesMean | app/file_identity_consumers.py:3641-3648 | the edges added join two different live owners, the first with a history that depends on the second |
| Selection.FollowEdges | app/file_identity_consumers.py:3649-3651 | one pass over the edges, in whatever order, stays within every closed set and changes nothing only when closed |
| Selection.Replay | app/file_identity_consumers.py:3638-3648 | replays every relevant owner, adding what its history depends on and the ledger edges, and fails exactly on a history or flag that is wrong |
| Selection.Neighbours | app/file_identity_consumers.py:2821-2826 | returns the owners linked, in either direction, to the given ones |
| Selection.LinkShared | app/file_identity_consumers.py:3628-3631 | the links to the smallest owner of each shared path bind the same owners together as linking every two of them |
| Selection.AnchorsSelectTheSame | app/file_identity_consumers.py:3628-3631 | so the closed selections, and the least one, are those of linking all pairs |
| RetainedReferences.ValidateRetained | app/file_identity_recovery.py:787-862 | the search over sorted paths accepts exactly when no effect touches a path, or below a subtree effect any path, that another owner references without permission |
| RetainedReferences.UnharmedMeans | app/file_identity_recovery.py:844-862 | accepted is exactly that no effect reaches, at its own path or by the names below a subtree, a path that another owner references in a role without permission |
| RetainedReferences.SubtreeOk | app/file_identity_recovery.py:853-862 | the stretch read from the first place at or after the prefix covers every path below it |
| RetainedReferences.PrefixContiguous | app/file_identity_recovery.py:853-862 | in sorted order the texts with a given prefix are neighbours |
| RetainedReferences.BisectLeft | app/file_identity_recovery.py:854-855 | finds the first place whose path is not before the prefix |
| LocationWitness.Observe | app/file_identity_recovery.py:5189-5322 | whatever is found, however early a budget ends it, and after a late race, the inventory passes the check; it holds exactly the roles acquisition reaches and is complete exactly when every budget allows; each record is what was found exactly when no absent cohort directory lies above it, and otherwise unreachable exactly when the held witnesses verify |
| LocationWitness.Validate | app/file_identity_recovery.py:4613-4666 | the loops over groups, absences, candidates and their depths accept exactly the inventories with no plain absence below an absent cohort directory whose unreachable roles name the shallowest one |
| LocationWitness.CandidateMeans | app/file_identity_recovery.py:5213-5222 | a candidate witness is an absent directory of a shared cohort whose names are a proper beginning of the role's |
| LocationWitness.SortRoles | app/file_identity_recovery.py:5199-5209 | acquisition takes directories of cohorts first, shallow before deep, then the closure's order |
| LocationWitness.BeforeByKey | app/file_identity_recovery.py:5199-5209 | the order is that of the sort key: leading directory or not, the number of parts of its path, the place in the closure |
| LocationWitness.ChooseWitness | app/file_identity_recovery.py:5222-5237 | the chosen witness is the first candidate by depth and then by place |
| LocationWitness.LaterIsNoCandidate | app/file_identity_recovery.py:5199-5209 | no role acquired later can be an absent directory above one acquired earlier |
| Paths.BelowIsDeeper | app/file_identity_recovery.py:3868-3869 | below a canonical path other than the root everything is deeper |
| Paths.WithinMeans | app/file_identity_recovery.py:3868-3869 | a canonical path is within another exactly when its names begin with all of the other's |
| Claims.TransitionMeans | app/file_identity_claims.py:748-848 | what a capture accepts continues an object of the set before, with its native handle and enrolled constraints, or is a birth the journal acknowledges |
| ClaimRules.TransitionExactly | app/file_identity_claims.py:474-848 | a capture accepts an object exactly when it agrees with the one it continues by a controlled move of the journal, the preferred one if there are several, or continues none and is an acknowledged birth |
| ClaimRules.AbsentExactly | app/file_identity_claims.py:851-918 | a role may be missing exactly when the phases of the journal's carriers do not need it |
| ClaimRules.CompleteExactly | app/file_identity_claims.py:1158-1195 | a set is complete exactly when the file the claim is about, and its publication, are under one of their names or have been given up as the journal allows |
| Claims.EveryObjectHasOrigin | app/file_identity_claims.py:748-848 | over a chain of sets every native object goes back to the first set or to an acknowledged birth |
| Claims.LineageKeeps | app/file_identity_claims.py:474-548 | along a chain enrolled constraints never change but the link count; that rises at most once a receipt, and falls at most once a discard of a carrier that held the object and once a discarding step of a deletion that starts from a set without such a carrier |
| Claims.LossIsDiscard | app/file_identity_claims.py:537-545 | a lost link is a discard of a carrier that held it always for a rescan, and for a deletion exactly when the set before enrols the object as the artifact, which the code does not look at |
| Claims.LossWithoutDiscard | app/file_identity_claims.py:537-545 | an accepted chain in which one discard is followed by the loss of two links |
| Claims.AccountedExactly | app/file_identity_claims.py:537-545 | every loss of a lineage is accounted for exactly when each discarding step of a deletion starts from a set that enrols the object as the artifact |
| Claims.FieldsMean | app/file_identity_claims.py:699-745 | a link is gained only with a receipt and lost only with a discard of a carrier that held it or, in a discarding deletion without such a carrier, unaccounted for |
| Claims.NothingAppears | app/file_identity_claims.py:821-848 | over steps without an acknowledged birth no native object appears |
| Claims.CaptureSet | app/file_identity_claims.py:921-1237 | captures the whole set exactly when every role agrees or may be absent, every transition is accepted, the phase has lost nothing and both budgets are kept; the set then continues every chain that ends in the one before |
| Bencode.SkipString | app/clients.py:185-202 | returns the string and the offset after it exactly when a canonical length and that many bytes are there |
| Bencode.SkipValue | app/clients.py:148-182 | returns the offset at which the reader of one value stops, and terminates |
| Bencode.SkipMeaning | app/clients.py:148-182 | that offset is p exactly when the bytes up to p are the encoding of one value within the depth bound |
| Bencode.DepthEdge | app/clients.py:148-151 | a value may stand inside a hundred collections and no more |
| Bencode.PrefixFree | app/clients.py:148-202 | no encoding is a prefix of another, so the value and the offset are unique |
| Bencode.ParseSound | app/clients.py:148-202 | what is read is exactly the encoding of the value read |
| Bencode.ParseComplete | app/clients.py:148-202 | every encoding is read back, whatever follows it |
| Bencode.UnsortedAccepted | app/clients.py:168-179 | a dictionary with unsorted keys is accepted |
| Bencode.StrictMeaning | app/clients.py:148-182 | what is accepted is a BEP 3 encoding exactly when the keys of the value read are sorted |
| Torrent.InfoSpan | app/clients.py:214-234 | finds the span of the single info dictionary exactly when the input is one dictionary with strictly increasing keys |
| Torrent.InfoMembers | app/clients.py:236-255 | the second pass reads exactly the members of that dictionary and cannot end anywhere but at its end |
| Torrent.SpanIsEncoding | app/clients.py:257-258 | the hashed span is the encoding of the info dictionary, byte for byte |
| Torrent.TorrentInfoIdentity | app/clients.py:211-270 | returns an identity exactly when the input is one dictionary with rising keys whose info dictionary has rising keys too and selects that identity: SHA-1 of its encoding without `meta version`, the first twenty bytes of SHA-256 for version 2 with a file tree, followed by SHA-1 in a hybrid |
| LoginThrottle.Throttle.Prune | app/auth.py:300-305 | drops from the front what has left the window |
| LoginThrottle.Throttle.RetryAfter | app/auth.py:307-313 | the answer follows from the failures since the last success or reset that lie in the window, whatever was pruned before |
| LoginThrottle.Throttle.RecordFailure | app/auth.py:315-322 | the same, with the new failure counted |
| LoginThrottle.Throttle.RecordSuccess | app/auth.py:324-326 | forgets the client's failures and no one else's |
| LoginThrottle.Throttle.Clear | app/auth.py:328-330 | forgets every client's failures |
| LoginThrottle.PrunedWithin | app/auth.py:300-305 | with times that never decrease, dropping from the front keeps exactly the failures strictly inside the window |
| LoginThrottle.WithinMeans | app/auth.py:300-305 | of rising times those of the last 900 seconds count |
| LoginThrottle.RecentCounts | app/auth.py:293-330 | after any calls at non-decreasing times the failures that count are rising, inside the window and not in the future |
| LoginThrottle.WaitRange | app/auth.py:307-322 | a wait is advertised exactly from the limit on, and is between 1 and 900 seconds |
| LoginThrottle.WaitExpiresOldest | app/auth.py:313-322 | waiting that long expires the oldest failure, and a second less does not |
| LoginThrottle.FreeAgain | app/auth.py:307-313 | the client is let in at a later time exactly when the fifth failure from the newest has left the window |
| LoginThrottle.FreedExactly | app/auth.py:307-322 | the advertised wait frees the client exactly when the fifth failure from the newest came after the oldest by no more than rounding up adds to what is left of the window |
| LoginThrottle.WaitFreesAtLimit | app/auth.py:307-313 | with exactly the limit the advertised wait frees the client |
| LoginThrottle.WaitMayNotFree | app/auth.py:307-322 | six recorded failures after which the advertised wait does not free the client |

## Left out

- CopySteps.StepKeeps: the copy is a state machine on values, not a class with fields, because outsiders and other attempts act between any two of its operations.
- CopyGuarantees.PendingWhileUnproven: outsiders who hard-link, write into an attempt's file, or touch the marker or a private carrier are outside the protocol's own boundary and not modelled.
- CopyGuarantees.ReturnedMeans: equal digests are taken as equal bytes, and the renaming of the parent directory shows only as a failing step.
- CopyGuarantees.OneHolder: a deferred attempt settles once, as its callers do; the file's mode and times are not modelled.
- PlanScanner.Scanner.Value: numbers with a fraction or an exponent are refused by the scanner and are not values of the model; the decoder's own treatment of them is left out.
- RecoveryPlan.BuildRecoveryPlan: the checks and records derived from the reviewed epoch bindings, and those of a single decision, are a parameter that may refuse.
- JsonLoad.Load: the decoder of the standard library is the model's own reader; its treatment of floats, lone surrogates and texts the scanner refuses anyway is not compared.
- Ledger.Validate: the checks of epochs, manifests, paths and stored digests, and of recovery intents named by a manifest, are not part of the replay; a digest is an opaque text.
- Ledger.Store.PrepareSet: whether the proof's epoch, snapshot and dependencies still hold is an input; a failing insert undoes the whole transaction and is not a separate step.
- Ledger.ReadBack: whether the proof is still current is an input, and the fields of a capability other than its plan, epoch and activation are one binding.
- Torrent.TorrentInfoIdentity: the two digests are parameters, and writing them out in hexadecimal is left out.
- Selection.Select: how rows of the database become links, edges, series and seeds is an input, as is the replay of one owner's history.
- RetainedReferences.ValidateRetained: how decisions turn into references, effects and permissions is an input.
- LocationWitness.Observe: which roles form a cohort, what observing a path finds, and the budgets are inputs.
- Claims.CaptureSet: opening a path, its policy, its fingerprint and the journal's fingerprint are one input; markers and namespace bindings are part of it.
- LoginThrottle.Throttle.RetryAfter: the clock is a parameter over the reals, and a call is atomic. The code reads the clock before it takes the lock, so that the times do not decrease in the order of the lock is an assumption.
- Bencode.SkipValue: a byte is any number, because nothing in the skipper depends on its being below 256.
- SQLite, SQL text and schema checks; tables are sequences of rows and a transaction is one call.
- Path handling by descriptors, mounts and file locks, hashing, and key derivation.
- The action checks of each recovery domain, the projection of roles from journals, download clients, feeds, settings, sessions, backup and restore.
