# DocLink: a verified model

DocLink lets PCs on one LAN read each other's shared folders. A reader is
paired once, holds a *grant* with a scope (a list of files and folders, the
empty list meaning everything) and signs every request. Readers may also drop
files into the owner's inbox. This project models that logic in Dafny and
proves what it promises.

`dafny verify dfyconfig.toml` checks everything.

## Layout

| files | what they hold |
|---|---|
| `Paths`, `ShareTree`, `Walks` | relative paths and strict containment, the share as a tree of listings, reachability through any listing source |
| `Scope` | who may list and read what, and what browsing reaches |
| `Unshare`, `UnshareLaw` | taking one item out of a scope |
| `Grants`, `ShareItem`, `ShareItemLaw` | the grant store, sharing one item with chosen grantees |
| `Search`, `SearchLaw`, `SearchAgreement` | the two filename searches, and their agreement with browsing |
| `AccessEditor` | the owner's tick-box editor and its `topMost` |
| `Options`, `Numbers`, `Text`, `Sets` | optional values, numbers as text, trimming, set sizes |
| `Canonical` | the strings that signatures cover |
| `Access`, `Daemon` | pairing, grants and authentication as a state machine, and the handlers that perform its steps |
| `AccessRuns` | building runs: every log can be run, every run extended |
| `AccessSafety`, `AccessProvenance`, `AccessReplay`, `AccessSweep` | what holds over every run of that machine |
| `AccessAnswers` | what each answer of a handler means |
| `RateLimit` | the per-address limiter of the pairing endpoints |
| `InboxNames`, `Inbox`, `InboxLaw` | the drop folder |
| `Calendar` | day numbers and expiry timestamps |
| `Events` | the notification ring, its poller and expiry announcements |
| `Dechunk` | chunked transfer decoding |

## How the model is built

- A share is a finite map from directory to listing; "" is the root, each entry's
  path is its directory, a slash and its name, and names are non-empty without
  slash or NUL. Listings, `resolve` and `is_file` are parameters.
- Strings are sequences of characters. The code compares bytes; on UTF-8 text the
  prefix tests it makes give the same answers.
- Signature verification and key fingerprints are functions in a `Crypto` record.
  Where a theorem needs more of them it says so: a fingerprint has at least 16
  characters (`Digests`), no two keys share a node id (`DistinctNodeIds`), one
  signature string verifies for one message (`BindsMessage`).
- Each handler is one step at one clock reading, and clocks do not run backwards
  (`NonDecreasing`, `InOrder`). Where the code may pick any of several oldest
  entries to evict, the step relation allows any of them.
- What the file system answers is a parameter of each inbox step: an upload may fail
  while it writes, renames or adds its sidecar (`Storing`), a move into the share may
  be refused or become a copy from volume to volume with a failure at any point
  (`Transfer`), a deletion may fail (`Removal`), a sidecar may stay (`cleared`).
- `Restart` keeps the grants and forgets pending requests, remembered outcomes and
  signatures seen. A rejected update is applied but not saved, so what the grant file
  says about grants that allow nothing is a parameter of that step.
- Grant stores start empty; `Notified` stands for a decision the daemon received
  about its own requests.

## Where code and documentation part

The model follows the code in each case, and a lemma says exactly when the
documented behaviour holds.

- Unsharing is said to hide the item from every deselected grantee. Entries the
  scope lists strictly inside the item survive (`UnshareHidesItemIff`).
- A trailing slash on the item makes the preparation miss one directory
  (`ChainIsEnumeratedIff`), and then the scope changes iff it lists the slashed
  spelling and nothing above it (`TrailingSlashUnsharesNothing`).
- A listing that fails during unsharing counts as an empty folder. A file outside
  the item stays readable iff a scope entry that does not contain the item covers
  it, or every folder between some entry above the item and the place where file
  and item part could be listed (`DeselectionIsExact`); siblings can be lost
  (`SiblingIsLost`), nothing is ever gained (`FailedListingsNeverWiden`).
- The scope entry "" reads nothing but is searched as the whole share
  (`EmptyEntryLeaksIntoSearch`).
- `truncated` should report an incomplete search. The walk does not set it when the
  limit drops hits of the last folder it opens: its result is that of the uncapped
  walk, which keeps every hit of each folder it opens, cut to 200 with the same flag
  (`ResultLimitIsExact`). The handler always answers false, which is right iff the
  uncapped walk is not truncated and the cut drops nothing that is not in the answer
  anyway (`FalseFlagIsRightIff`). In a folder of more than 200 matching files every
  further one is lost silently (`LimitIsSilent`).
- An earlier denial keeps answering status polls after an approval. While the
  approval stands, a poll says "approved" iff the node has not asked again and no other
  outcome is remembered for it (`ApprovalShowsIff`). An outcome is forgotten only by a
  restart, a different outcome, or eviction as one of the oldest of a full memory
  (`OutcomeIsRecalled`, `CanForget`); `DeniedThenApproved` is a run that shows it.
- A rejected permission update has already been applied (`UsableIsKeptIff`).
- Pending requests expire after ten minutes only when another node's request is
  queued: a request waits on iff no step decides on its node, replaces it, queues
  another request once it is ten minutes old, or is a restart (`WaitingIsExact`). Until then it is
  approved at any age (`SparedRequestIsApproved`, `ApprovedAtAnyAge`).
- A signed request is meant to be let in once. In one daemon lifetime it can be let
  in again iff the first time came before its own timestamp or another string verifies
  as its signature (`SecondAcceptanceIff`). Signatures are read as hex in either letter
  case and remembered as strings, so one with a letter in it has such a respelling
  (`LetterIsRespellable`) and passes again in the same second (`RespelledIsAdmitted`).
  A restart forgets the signatures seen (`RestartAdmitsReplay`).
- The inbox is meant to hold payloads and their sidecars. A failed write or rename
  leaves the upload's temporary file, which the owner can neither accept nor discard,
  and a departing payload may leave its sidecar. A tidy inbox stays tidy iff no step
  leaves something behind (`RunsStayTidyIff`), and a leftover temporary file goes only
  when a later upload lands under its name (`LeftoverStaysIff`).
- Accepting an inbox file is meant to leave the share's files alone. Across volumes
  the copy goes through `.name.part`, and a share file of that name is overwritten;
  a share file is untouched iff no such copy hits it (`ShareFileSurvivesIff`,
  `CopyOverwritesTemp`).
- "20 per minute" is a fixed window: up to 39 calls pass within one minute, never
  more (`WindowAdmitsFewerThanTwice`, `BoundIsReached`, `PairingAdmitsThirtyNine`).
- "Only selected items" with nothing selected saves full access (`Editor.Save`).
- After a daemon restart the toast poller does not re-baseline: its saved cursor
  hides exactly that many new events, so all are shown iff the cursor was 0 or
  nothing was published (`RestartHidesCursorManyEvents`).
- The chunk decoder panics on a body iff the body is good chunks followed by one whose
  size ends inside a character (`Dechunk.PanicsIff`).
- Dates such as 31 February pass the guard and count on into the next month
  (`ImpossibleDaySpillsOver`).

## Model

| member | source | states |
|---|---|---|
| Paths.BothFormsAgree | webui/app.js:60-62 | the web UI's containment test and the daemon's are the same relation |
| ShareTree.AncestorIsDir | crates/doclinkd/src/share.rs:69-102 | every proper ancestor of a file or folder in the share is itself a listable folder of the share |
| ShareTree.StepTowards | crates/doclinkd/src/share.rs:69-102 | from any folder above a node some listed child is the node or contains it |
| Scope.BrowsingIsExact | crates/doclinkd/src/server.rs:341-400 | for every tree and scope, a file is reached by some chain of visible, listable folders from the root if and only if it exists and may be downloaded |
| Scope.ShownIffListable | crates/doclinkd/src/server.rs:341-358 | on a scoped grant a non-root folder row is shown exactly when that folder may be listed |
| Scope.FolderShownIff | crates/doclinkd/src/server.rs:331-358 | a scoped grantee sees a folder iff everything below it may be read or something granted lies below it |
| Scope.FileShownIff | crates/doclinkd/src/server.rs:353-358 | a scoped grantee sees a file row iff the file may be downloaded |
| Unshare.Walk | crates/doclinkd/src/admin.rs:864-882 | the recursive expansion terminates for any listing source whose children are longer than their folder, and returns the survivors of the folder, or nothing if a listing is missing |
| Unshare.RewriteEntries | crates/doclinkd/src/admin.rs:887-900 | the loop over the scope rewrites each covering entry and reports a change exactly when the scope covered the item |
| Unshare.SubtractFromScope | crates/doclinkd/src/admin.rs:859-910 | the whole subtraction computes `Subtracted`, of which the law of unsharing is proved |
| UnshareLaw.UnshareIsExact | crates/doclinkd/src/admin.rs:859-910 | a file is readable afterwards iff it was readable and is not at or under the item, or an entry listed strictly inside the item covers it; None iff the scope did not cover the item; the result is never the empty (full-access) list |
| UnshareLaw.UnshareNeverWidens | crates/doclinkd/src/admin.rs:849-858 | with any listings missing or incomplete the rewritten scope still reads no more than the law allows |
| UnshareLaw.UnshareHidesItemIff | crates/doclinkd/src/admin.rs:912-915 | nothing of the item stays readable iff no scope entry strictly inside it still holds a file |
| UnshareLaw.SurvivorsAreSound | crates/doclinkd/src/admin.rs:864-882 | a survivor of a folder lies inside it and reaches nothing of the removed branch |
| UnshareLaw.SurvivorsAreComplete | crates/doclinkd/src/admin.rs:864-882 | every file of the folder outside the removed branch is covered by a survivor |
| UnshareLaw.NoAccessCoversNothing | crates/doclinkd/src/admin.rs:844-847 | the no-access sentinel lets no file of any share be read |
| ShareItem.CoversAny | crates/doclinkd/src/admin.rs:929-947 | phase 1 finds out whether some deselected grant has full access or covers the item |
| ShareItem.Enumerate | crates/doclinkd/src/admin.rs:949-974 | phase 2 lists the root and each prefix ending before an inner slash, without the removed branch, failures counting as empty |
| ShareItem.RescopeOne | crates/doclinkd/src/admin.rs:976-997 | one grant's new scope, also when phase 2 was skipped |
| ShareItem.Share | crates/doclinkd/src/admin.rs:916-1002 | every grant keeps its place and all fields but its scope, which becomes `Rescoped`; the root and unresolvable paths are refused with nothing changed |
| ShareItemLaw.ShareItemIsExact | crates/doclinkd/src/admin.rs:916-997 | selected grantees gain exactly the item's subtree, deselected ones follow the law of unsharing, files outside the subtree keep their readability for everyone |
| ShareItemLaw.DeselectionIsExact | crates/doclinkd/src/admin.rs:949-997 | whatever listings fail, which files a deselected grantee keeps: those covered by an entry that does not contain the item, and those under a containing entry all of whose folders on the way to the file and the item could be listed; the scope never becomes the empty (full-access) list |
| ShareItemLaw.SiblingIsLost | crates/doclinkd/src/admin.rs:961-972 | a failed root listing takes a sibling of the item from a grantee with full access |
| ShareItemLaw.FailedListingsNeverWiden | crates/doclinkd/src/admin.rs:961-972 | corollary: with any listings failed, a deselected grantee reads nothing the law of unsharing would not leave |
| ShareItemLaw.ChainIsEnumeratedIff | crates/doclinkd/src/admin.rs:949-958 | every folder the walk can ask for was enumerated iff the path does not end in a slash after a name |
| ShareItemLaw.TrailingSlashUnsharesNothing | crates/doclinkd/src/admin.rs:955-958 | unsharing "folder/" changes a deselected scope iff it lists that spelling and no entry contains it |
| Search.ScanListing | crates/doclinkd/src/server.rs:219-231 | one listing is read in order until the visit budget is passed; folders are queued, matching files collected up to the limit |
| Search.SearchScope | crates/doclinkd/src/server.rs:195-234 | terminates for any listing source, returns at most 200 results after at most 20,001 visits, and computes `ScopeSearch` |
| Search.SearchHandler | crates/doclinkd/src/server.rs:604-679 | refuses a grant without file access and queries under two characters after trimming; otherwise the answer is the directly granted files that match followed by the hits of the walk, and its `truncated` is always false |
| Search.ContainsIff | crates/doclinkd/src/server.rs:186-188 | a name matches iff the query is a slice of it, both in lower case |
| SearchAgreement.HandlerIsExact | crates/doclinkd/src/server.rs:604-679 | when its walk ran to the end the handler lists exactly the files that may be downloaded and whose lower-cased name holds the lower-cased trimmed query as a slice, each under its own name |
| SearchAgreement.HandlerRefusesIff | crates/doclinkd/src/server.rs:613-622 | exactly which searches are refused, and how |
| SearchAgreement.LexLessIff | crates/doclinkd/src/server.rs:653 | the order of the roots is that of the first differing character, a prefix first |
| SearchAgreement.RootsAreSorted | crates/doclinkd/src/server.rs:653-654 | the granted paths are walked in ascending order, each once |
| Text.TrimIsExact | crates/doclinkd/src/server.rs:616 | trimming cuts off blanks only and leaves none at either end |
| Text.SpaceIff | crates/doclinkd/src/server.rs:616 | the 25 characters that count as blank |
| Search.SearchFallback | crates/doclinkd/src/proxy.rs:160-216 | fails iff the root cannot be listed, otherwise terminates for any listing source and computes `FallbackSearch` |
| SearchLaw.ScopeSearchIsExact | crates/doclinkd/src/server.rs:195-234 | every hit is a matching file reachable from the roots; not truncated and under 200 hits, all of them are found; truncation means the budget or the limit was reached |
| SearchLaw.ResultLimitIsExact | crates/doclinkd/src/server.rs:195-234 | for every listing source, roots and query: the result is that of the uncapped walk cut to 200, with the same flag and visits; nothing is cut iff there are at most 200; and untruncated, the uncapped walk holds exactly the reachable matching files |
| SearchLaw.FalseFlagIsRightIff | crates/doclinkd/src/server.rs:660-679 | the handler's constant `truncated: false` is right (not stopped early, no hit missing) iff the uncapped walk is not truncated and the cut drops only hits the answer holds anyway |
| SearchLaw.LimitIsSilent | crates/doclinkd/src/server.rs:219-231 | in any folder of distinct matching files within the budget, every file after the 200th is a hit, is not in the result, and truncation is not reported |
| SearchLaw.FallbackIsExact | crates/doclinkd/src/proxy.rs:160-216 | every hit is a matching file reachable from the root, and an untruncated run finds all of them |
| SearchLaw.WalkStopsIff | crates/doclinkd/src/server.rs:211-215 | with folders left to open the walks stop exactly at 200 results or at 20,000 visits, the fallback at 1,500 |
| SearchLaw.FallbackTruncatesAt | crates/doclinkd/src/proxy.rs:187-190 | a truncated fallback has visited 1,500 entries or found 200 files |
| SearchAgreement.FallbackShowsShallowFirst | crates/doclinkd/src/proxy.rs:160-216 | breadth first: no file is shown before one that lies less deep |
| SearchAgreement.SearchAgreesWithBrowsing | crates/doclinkd/src/server.rs:628-667 | walking granted roots plus directly granted files, walking breadth-first through filtered listings, and checking files one by one give the same set for every tree and every scope without "" |
| SearchAgreement.EmptyEntryLeaksIntoSearch | crates/doclinkd/src/server.rs:628-634 | for every scope holding "" there is a share where the search shows a file that may not be read, with a name long enough to be searched for |
| AccessEditor.TopMostPreservesAccess | webui/app.js:64-66 | keeping the topmost paths changes nothing that may be read, leaves no path inside another, and is empty only for the empty list |
| AccessEditor.Editor.Check | webui/app.js:552-558 | ticking a box adds exactly its subtree and keeps the ticks free of overlaps |
| AccessEditor.Editor.Uncheck | webui/app.js:559-561 | clearing a box hides everything at or under it iff no other tick contains it or lies inside it; among non-overlapping ticks it removes exactly that subtree |
| AccessEditor.Editor.Save | webui/app.js:623-637 | the saved scope reads exactly the ticked subtrees, or everything if "Everything" is chosen or nothing is ticked |
| Canonical.PairStringIsInjective | crates/doclink-core/src/protocol.rs:244-249 | the signed pair-request string determines every field even if the name contains line breaks |
| Canonical.DecisionStringIsInjective | crates/doclink-core/src/protocol.rs:252-257 | the signed decision string determines every field |
| Canonical.RequestStringIsInjective | crates/doclink-core/src/identity.rs:104-107 | the signed request string determines verb, path, timestamp, nonce and decoded body |
| Canonical.RolesNeverCoincide | crates/doclink-core/src/protocol.rs:244-257 | no string is a pair request, a decision and a request in two roles |
| Canonical.PairLayout | crates/doclink-core/src/protocol.rs:244-249 | line by line a pair request signs its tag, node id, name, key and duration |
| Canonical.DecisionLayout | crates/doclink-core/src/protocol.rs:252-257 | line by line a decision signs its tag, requester, verdict, duration and key |
| Canonical.RequestLayout | crates/doclink-core/src/identity.rs:104-107 | line by line a request signs verb, path, timestamp, nonce and body |
| Canonical.LineBreakInNodeIdIsAmbiguous | crates/doclink-core/src/protocol.rs:244-249 | with a line break allowed in the node id two different requests share one signed string |
| Daemon.Node.PairRequest | crates/doclinkd/src/server.rs:683-750 | a pair request is one `Pair` step with the stated reply for every refusal, live grant, full queue and admission; the notice for the owner is published iff the request is admitted and its node was not waiting |
| AccessAnswers.PairAnswers | crates/doclinkd/src/server.rs:683-763 | when each answer is given: unsigned, keyless or mismatched requests are refused; approved iff the key holds an unexpired grant, with its expiry; too many iff 64 other nodes have requests younger than ten minutes; otherwise the request now waits |
| Daemon.PairNoticeTells | crates/doclinkd/src/server.rs:268-274 | the notice names the requester and shows its id in four groups of four |
| AccessProvenance.AnnouncedAgainIff | crates/doclinkd/src/server.rs:725-745 | over every run, of two successive requests of one node the second is announced iff the first left the queue in between (restart, decided, or dropped as stale by another node's request) and there is room |
| Daemon.Node.AdmitPending | crates/doclinkd/src/server.rs:754-763 | stale entries go first, then the request is queued unless 64 others are waiting |
| Daemon.Node.RememberDecision | crates/doclinkd/src/server.rs:776-790 | the outcome is recorded, a full map first losing one of its oldest entries |
| Daemon.Node.OldestDecision | crates/doclinkd/src/server.rs:785 | the evicted entry has the smallest timestamp |
| Daemon.Node.ApplyDecision | crates/doclinkd/src/server.rs:884-945 | a decision is one `Decide` step: the request leaves the queue first, a denial is remembered, an approval replaces the key's grant |
| AccessAnswers.DecisionAnswers | crates/doclinkd/src/server.rs:884-945 | when each answer is given and what it did: the request no longer waits, a denial is remembered, only an approval that permits something changes the grants |
| AccessAnswers.ApprovalGives | crates/doclinkd/src/server.rs:917-938 | an approval gives the key one grant to the whole share, files unless refused, printing only if asked for, until the period is over; other keys keep theirs |
| AccessAnswers.ApprovalGoverns | crates/doclinkd/src/server.rs:917-938 | over every run, until changed, a request let in for that key is served under exactly that |
| Daemon.Node.RevokeGrant | crates/doclinkd/src/admin.rs:776-789 | revoking drops exactly the grants of that fingerprint |
| Daemon.Node.UpdateGrant | crates/doclinkd/src/admin.rs:802-838 | an unknown grant changes nothing; a known one is rewritten even when the answer is that nothing would remain allowed |
| AccessAnswers.UpdateIsExact | crates/doclinkd/src/admin.rs:802-838 | the updated key reads exactly the given scope, a permission changes only if given, and nothing else about any grant changes |
| AccessAnswers.UpdateAnswers | crates/doclinkd/src/admin.rs:802-838 | unknown iff no grant has the fingerprint; the answer shows the grant as stored; rejected only when nothing is left allowed |
| AccessAnswers.UpdateGoverns | crates/doclinkd/src/admin.rs:802-838 | over every run, until the next update, rescope, re-approval, revocation or restart, a request let in for that key has the scope and permissions of that update |
| Daemon.Node.ShareOne | crates/doclinkd/src/admin.rs:916-1002 | sharing one item is one `Rescope` step over all grants, or a refusal that changes nothing |
| Daemon.Node.SweepExpired | crates/doclinkd/src/store.rs:161-195 | a tick publishes the notices due, then keeps exactly the live grants |
| Daemon.Node.Reopen | crates/doclinkd/src/server.rs:139-155 | a new process over the same grant store is one `Restart` step: grants stay, everything else starts empty |
| AccessAnswers.RestartKeeps | crates/doclinkd/src/server.rs:139-155 | a restart keeps every grant that allows something as it was, all identities and periods, and forgets everything else |
| Daemon.Node.RejectReplays | crates/doclinkd/src/auth.rs:114-125 | entries older than 900 s are forgotten, the signature passes iff it is not remembered, and is recorded either way |
| Daemon.Node.Authenticate | crates/doclinkd/src/auth.rs:127-184 | authentication is one `Request` step answering with the grant or the precise refusal |
| AccessAnswers.HeadersAnswer | crates/doclinkd/src/auth.rs:58-109 | exactly when headers are missing, the timestamp is no number, the clock is more than 900 s off or the signature of the written-out text fails |
| AccessAnswers.StrangerAnswer | crates/doclinkd/src/auth.rs:114-157 | exactly when a verified caller is told replayed, pending, denied or unknown |
| AccessAnswers.GranteeAnswer | crates/doclinkd/src/auth.rs:158-184 | exactly when a caller whose node has a grant is let in, expired, without key or under another identity |
| Numbers.ParseIff | crates/doclinkd/src/auth.rs:90-92 | a text is read as a number iff it is an optional plus sign, zeros and the decimal digits of a number below two to the sixty-fourth |
| Daemon.Node.PollStatus | crates/doclinkd/src/server.rs:952-1017 | a signed poll is one `Poll` step answering pending, then remembered outcome, then live grant |
| AccessAnswers.PollIsExact | crates/doclinkd/src/server.rs:979-1018 | over every run: approved only by a recorded outcome or by an approval neither revoked nor over, with its expiry; denied only by a recorded outcome; unknown iff nothing waits, is remembered or stands |
| AccessAnswers.PollAnswersOwner | crates/doclinkd/src/server.rs:952-977 | a status is told to the holder of the key behind the node id under a fresh signature, always, and to nobody else |
| AccessAnswers.RecalledWasRecorded | crates/doclinkd/src/server.rs:776-790 | every remembered outcome was recorded by an earlier denial or notification at its own time |
| AccessSafety.ReachableStatesAreSafe | crates/doclinkd/src/server.rs:683-945 | in every reachable state grants are unique by fingerprint, node ids are the fingerprint's first 16 characters, at most 64 requests wait, each signed by its own key, and at most 256 decisions are kept |
| AccessSafety.StepKeepsInv | crates/doclinkd/src/server.rs:683-945 | each step of the machine keeps that invariant |
| AccessProvenance.AcceptedRequestWasApproved | crates/doclinkd/src/auth.rs:127-184 | over every run, an accepted request comes from a key whose signed pair request was queued and, while it was still that entry, effectively approved; the grant is not revoked since and is inside its period |
| AccessProvenance.ApprovedRequestIsAccepted | crates/doclinkd/src/auth.rs:127-184 | conversely, until revoked, re-approved or expired, an approved key's fresh signed requests are accepted |
| AccessProvenance.ApprovalShowsIff | crates/doclinkd/src/server.rs:979-1017 | over every run, while an approval is undisturbed and unexpired a poll says approved iff the node is not waiting again and any outcome remembered for it is an approval |
| AccessProvenance.OutcomeIsRecalled | crates/doclinkd/src/server.rs:776-790 | over every run an outcome stays remembered as long as no step can forget it: restart, different outcome for the node, or a new node's outcome while the memory is full and this one is among the oldest |
| AccessProvenance.CanForget | crates/doclinkd/src/server.rs:776-790 | that condition is exact: each such step has a successor in which the outcome is forgotten |
| AccessProvenance.DenialOutlivesApproval | crates/doclinkd/src/server.rs:979-1017 | until then every poll answers denied, or pending while the node waits again |
| AccessProvenance.DeniedThenApproved | crates/doclinkd/src/server.rs:893-945 | a run of request, denial, request, approval after which the node holds a live grant and is told it was denied |
| AccessProvenance.UsableIsKeptIff | crates/doclinkd/src/admin.rs:817-830 | "every grant allows files or printing" survives a step iff the step is not an update stripping both |
| AccessProvenance.WaitingIsExact | crates/doclinkd/src/server.rs:754-773 | over every run, a queued request is waiting throughout iff every step spares it: no restart, no decision on its node, no replacement, no other request queued once it is ten minutes old |
| AccessProvenance.SparedRequestIsApproved | crates/doclinkd/src/server.rs:884-945 | a spared request is approved whatever its age iff the decision says so and permits something, and the grant is its own |
| AccessProvenance.ApprovedAtAnyAge | crates/doclinkd/src/server.rs:893-899 | for every age there is a run approving a request that old |
| AccessReplay.AcceptancesAreApart | crates/doclinkd/src/auth.rs:114-125 | in one daemon lifetime, after a signature was presented, accepted or not, it is accepted again only 901 s later or more |
| AccessReplay.AcceptedAtMostTwice | crates/doclinkd/src/auth.rs:90-125 | in one daemon lifetime one signature is accepted at most twice |
| AccessReplay.AcceptedOnceIfNotEarly | crates/doclinkd/src/auth.rs:90-125 | in one daemon lifetime a signature string is accepted at most once if first accepted at or after its own timestamp |
| AccessReplay.AdmittedTwiceOnlyIf | crates/doclinkd/src/auth.rs:90-184 | over every run, a request let in twice was so with a restart in between, with two signatures, or first before its timestamp and again at least 901 s later |
| AccessReplay.AdmittedTwiceIfEarly | crates/doclinkd/src/auth.rs:90-184 | a paired key's request let in at any moment before its timestamp is let in again 901 s later |
| AccessReplay.RespelledIsAdmitted | crates/doclinkd/src/auth.rs:114-125 | under another string that verifies as its signature a request is let in again in the same second |
| AccessReplay.LetterIsRespellable | crates/doclink-core/src/identity.rs:121-132 | as signatures are decoded from hex, every one with a letter digit has another such string |
| AccessReplay.RestartAdmitsReplay | crates/doclinkd/src/auth.rs:111-125 | after a restart the very same request is let in again at once |
| AccessReplay.SecondAcceptanceIff | crates/doclinkd/src/auth.rs:90-184 | some run without a restart in between lets a paired key's signed text in at a given moment and once more iff that moment is before its timestamp or another string verifies as its signature |
| AccessSweep.SweepsAreInvisible | crates/doclinkd/src/store.rs:170-195 | leaving the sweeps out of any run changes no authentication outcome |
| AccessSweep.SweepsCanBeLeftOut | crates/doclinkd/src/store.rs:170-195 | that run without the sweeps always exists |
| AccessSweep.OutcomeSeesLiveGrants | crates/doclinkd/src/auth.rs:137-170 | with distinct node ids authentication depends on the live grants only |
| AccessSweep.CollisionMakesSweepVisible | crates/doclinkd/src/auth.rs:137-170 | for every two keys with one node id there is a run that accepts a request of the second with a sweep before it and refuses it without |
| RateLimit.RateLimiter.Allow | crates/doclinkd/src/server.rs:73-86 | one call's answer and its effect on its own bucket, all others untouched |
| RateLimit.WindowAdmitsFewerThanTwice | crates/doclinkd/src/server.rs:73-86 | over any run any half-open interval of one window length admits at most twice the limit minus one per address |
| RateLimit.RefusedOnlyIfBusy | crates/doclinkd/src/server.rs:73-86 | over any run an address is refused only if the full limit of its calls was admitted less than one window ago |
| RateLimit.QuietIsAdmitted | crates/doclinkd/src/server.rs:73-86 | an address without a call in the last window is admitted |
| RateLimit.BoundIsReached | crates/doclinkd/src/server.rs:73-86 | for every limit above one there is a run that admits exactly that many |
| RateLimit.PairingAdmitsThirtyNine | crates/doclinkd/src/server.rs:58-72 | at 20 per 60 s any minute admits at most 39 calls of one address, and 39 is reached |
| RateLimit.BucketAdmitsAtMostMax | crates/doclinkd/src/server.rs:73-86 | each bucket admits at most the limit |
| RateLimit.AddressesAreIndependent | crates/doclinkd/src/server.rs:73-86 | an address's bucket and answers are what they would be had only it called |
| InboxNames.CandidateIsValid | crates/doclinkd/src/inbox.rs:45-84 | renaming an acceptable name gives an acceptable name, never the sidecar suffix |
| InboxNames.ValidIff | crates/doclinkd/src/inbox.rs:45-58 | a name is acceptable iff it is non-empty, holds none of the ten reserved characters, has no dot or blank at either end and not the metadata suffix |
| InboxNames.ValidIsOneComponent | crates/doclinkd/src/inbox.rs:45-58 | an acceptable name is one path component: joined to any folder it is a direct child of it |
| InboxNames.NumberedBeforeExtension | crates/doclinkd/src/inbox.rs:66-73 | a number goes between the stem and the last extension |
| InboxNames.NumberedAtEnd | crates/doclinkd/src/inbox.rs:74-81 | without an extension it goes to the end |
| InboxNames.CandidatesDiffer | crates/doclinkd/src/inbox.rs:66-81 | different numbers give different names |
| InboxNames.NamesNeverCollide | crates/doclinkd/src/inbox.rs:126-145 | payload, sidecar and temporary names never coincide, and sidecars and temporaries identify their payload |
| Inbox.DedupeInDir | crates/doclinkd/src/inbox.rs:61-84 | returns the first free name after at most one try per folder entry and one more, acceptable if the wanted name was |
| Inbox.NumbersBeginAtOne | crates/doclinkd/src/inbox.rs:66-81 | the first duplicate is numbered 1 |
| Inbox.DropFolder.WriteFile | crates/doclinkd/src/inbox.rs:126-145 | an upload is one step with a failure at any point; it succeeds exactly if nothing fails, and then its bytes are under a name that was free and is a direct child of the inbox, its sender record beside them |
| Inbox.DropFolder.AcceptFile | crates/doclinkd/src/inbox.rs:187-209 | on one volume or across volumes, with a failure at any point: success moves the payload under a name that was free in the share, an error leaves the inbox as it was |
| Inbox.DropFolder.RemoveFile | crates/doclinkd/src/inbox.rs:212-217 | discarding removes the payload and, if it can be deleted, its sidecar; a failed removal changes nothing |
| InboxLaw.PayloadIsConserved | crates/doclinkd/src/inbox.rs:126-217 | over every run, failed transfers included, a payload stays with its bytes until a step accepts it, and then its bytes are from that step on under the free share name where that step put them, or discards it |
| InboxLaw.SenderIsConserved | crates/doclinkd/src/inbox.rs:126-217 | over every run a payload keeps the record of its sender until it is accepted or discarded |
| InboxLaw.ShareFileSurvivesIff | crates/doclinkd/src/inbox.rs:187-209 | over every run a share file is untouched iff no cross-volume accept uses its name as temporary name |
| InboxLaw.ShareOnlyGrows | crates/doclinkd/src/inbox.rs:187-209 | so no run changes or removes a share file not named `.name.part` |
| InboxLaw.CopyOverwritesTemp | crates/doclinkd/src/inbox.rs:194-204 | a share file standing at the temporary name is gone after a cross-volume accept |
| InboxLaw.RunsStayTidyIff | crates/doclinkd/src/inbox.rs:126-217 | over every run from a tidy folder (payloads and sidecars of present payloads only) it is tidy all along iff no upload left its temporary file and no departing payload its sidecar |
| InboxLaw.LeftoverStaysIff | crates/doclinkd/src/inbox.rs:126-217 | a leftover temporary file survives a step iff the step is no upload that lands under its name |
| Calendar.ClosedFormCountsDays | crates/doclinkd/src/local_print.rs:444-458 | the closed form equals counting year and month lengths one by one, for every year from 1970, every month and every day number |
| Calendar.ExpiryIsExact | crates/doclinkd/src/local_print.rs:431-442 | every real timestamp printed as year-month-day hour:minute:second reads as its true second count |
| Calendar.ReadableIff | crates/doclinkd/src/local_print.rs:431-447 | a text has a value iff its first six fields are numbers, the year is from 1970 to 2100, the month from 1 to 12 and the day from 1 to 31 |
| Calendar.ExpiryIncreases | crates/doclinkd/src/local_print.rs:431-442 | later timestamps read as larger values |
| Calendar.ImpossibleDaySpillsOver | crates/doclinkd/src/local_print.rs:445-447 | a day beyond the month's end counts as the matching day of the next month |
| Events.Feed.Push | crates/doclinkd/src/events.rs:36-51 | the ring holds the last min(100, n) events with consecutive ids |
| Events.Feed.Since | crates/doclinkd/src/events.rs:54-56 | a reader gets exactly the unread part of the whole history, cut to the newest 100 |
| Events.Feed.ClaimExpiry | crates/doclinkd/src/events.rs:59-62 | true the first time a pair is asked about |
| Events.Feed.AnnounceExpiring | crates/doclinkd/src/store.rs:176-189 | a sweep claims exactly the due pairs not claimed before and publishes their notices, one each, in the order of the grants |
| Events.AnnouncedExactlyOnce | crates/doclinkd/src/store.rs:173-189 | over any run of sweeps each pair is announced at most once, each grant seen in its last 86,400 s has been, and nothing else is |
| Events.NoticesTell | crates/doclinkd/src/store.rs:180-186 | each notice names the grant that its claim is about |
| Events.StaysNumbered | crates/doclinkd/src/events.rs:36-51 | ids stay consecutive over every run |
| Events.Poller.Poll | crates/doclink-win/src/main.rs:391-419 | a first poll adopts the newest id, later ones show the unread events and move the cursor |
| Events.DeliveryIsExactIff | crates/doclink-win/src/main.rs:391-419 | from any cursor, a primed poller shows the events between its first and last cursor position exactly once in order iff it never polls with more than 100 unread; a run ending in a poll leaves nothing beyond the cursor |
| Events.FirstPollSkipsHistory | crates/doclink-win/src/main.rs:391-419 | without a saved cursor the first poll shows nothing, and from then on exactly the later events are shown |
| Events.RestartHidesCursorManyEvents | crates/doclink-win/src/main.rs:373-376 | with a new daemon a kept cursor hides exactly the events numbered up to it: all are shown iff it was 0 or nothing was published |
| Dechunk.Decode | crates/doclink-win/src/main.rs:351-367 | the loop, counting UTF-8 bytes, computes `Decoded`, including the panic |
| Dechunk.WidthIsLeast | crates/doclink-win/src/main.rs:355-359 | a character counts the fewest UTF-8 bytes that hold its code point |
| Dechunk.DecodeInvertsEncode | crates/doclink-win/src/main.rs:351-367 | decoding any Unicode text returns the payload for every split into non-empty chunks, whatever the spelling of the byte counts |
| Dechunk.EverySplitDecodes | crates/doclink-win/src/main.rs:351-367 | in particular with counts printed in hexadecimal, for every cut into non-empty parts |
| Dechunk.PanicsIff | crates/doclink-win/src/main.rs:351-367 | for every body: the decoder panics iff the body is good chunks followed by a size line whose count lies within the rest but matches no prefix of it |
| Dechunk.TruncatedDecodes | crates/doclink-win/src/main.rs:351-367 | on every prefix of an encoding it returns the data of exactly the leading complete chunks |

## Left out

- TLS, certificates, pinning, HTTP clients and mDNS discovery: wrappers over libraries and foreign event sources.
- Cryptography: signatures, hashes and hex stay functions.
- Path resolution: canonicalisation, symlinks and case-insensitive file systems; the model's share is the tree of literal paths.
- Persistence: a failed save of the grant store after a change in memory is not modelled.
- AccessSweep.SweepsAreInvisible: takes what a restart reads back as given; that a sweep which drops a grant also saves an update that had been rejected is not followed.
- Integer width: clock plus duration is unbounded when a grant's expiry is set; expiry timestamps do wrap at 64 bits, as an optimised build does.
- Concurrency inside inbox operations: each operation is one step.
- Inbox listing: its order by time and the sidecar's fields.
- The requester's side of a decision: contact rows and known-grantor checks come before the `Notified` step.
- Range requests, printing, the updater, settings, MIME tables and page rendering: no hard property.
- Replacing invalid UTF-8 before chunked decoding: the decoder's input is text.
