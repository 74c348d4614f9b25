# Verification of the host's protocols and build algorithms

This project models, in Dafny 4.11, the parts of roc-gui whose correctness is hardest to see by reading, and
proves what they promise on every input, every run or every interleaving. Each mutable object of the source is
a class whose methods are proved against a function of its state. The laws are then proved of those functions, and
tell what each does by something other than its body: a history, another operation, or the inputs it was given.

| module | models |
|---|---|
| `Grants`, `GrantFamilies`, `GrantLineage`, `GrantRuns`, `GrantAccounts`, `GrantRevocation`, `GrantLifetimes`, `GrantWithdrawals`, `GrantOutcomes`, `GrantListing` | the grant registry: every interleaving of its critical sections, with the copies of grants callers keep and a history that survives release and forgetting |
| `Rows`, `RowsPlacement`, `RowsRuns` | the viewport of a virtual list in saturating `u64` arithmetic: placement, windows, and the cost of scrolling |
| `TextUnits`, `TextInput`, `EditorInvariants`, `EditorLaws`, `EditorKeys`, `EditorSelection`, `EditProtocol` | the controlled text editor: UTF-8 and UTF-16 offsets, what every operation keeps, what one does after another, and the optimistic edit protocol |
| `LinkClosure`, `ClosureLaws`, `ClosureOrder`, `ClosureConfluence`, `ImportDerivation`, `DerivationLaws`, `DerivationFaults` | the lazy archive link and the import library derived from it |
| `Archive`, `ArchiveLaws`, `ArchiveGrammar`, `SizeFields`, `Separation`, `SeparationLaws`, `ReceiptLaws`, `IndexMembers` | the archive reader and writer ("Archive (Library) File Format" in Microsoft's PE Format specification), the separator and its receipts |
| `AppHeader`, `AppHeaderLaws`, `PlatformLens`, `PlatformLimits`, `AppLexer`, `AppSeparators`, `AppGrammar`, `AppParsing`, `AppTokens` | the app header reader, against a grammar of tokens and one of headers, and the platform rewriter, as a lens |
| `ArgvBatches` | greedy command-line batching |
| `MetadataGraph`, `GraphLaws` | the Cargo metadata walk |
| `ChooserGate`, `GateHistory` | the single-flight folder chooser |

Where a property does not hold of every input, the code is kept as it is, an input that fails is given, and the
exact condition is proved, for every input or run:

- The chooser gate's account breaks exactly when a configuration replaces the gate while a chooser is open
  (`ChooserGate.SingleFlight`; `ChooserGate.ResetOpensTwo`).
- The editor shows something other than the newest edit, or loses a preedit, exactly at a step that clobbers: a
  turn for an older value of the very text on screen, answered with something else; a configuration outside any
  turn; a preedit given up over text it covered (`EditProtocol.AlwaysInStepExactly`;
  `EditProtocol.RepeatedTextIsErased`, `EditProtocol.RepeatedPreeditIsOverwritten`,
  `EditProtocol.EmptiedPreeditIsUnsent`, `EditProtocol.StrayConfigurationReplaces`).
- The content leaves its one MiB exactly when a replacement or a preedit takes a backwards range it has no room to
  repeat (`EditorInvariants.AlwaysWithinLimitExactly`; `EditorInvariants.BackwardsRangeOverflows`).
- An ordered selection comes to run backwards exactly at an admitted preedit whose own selection the platform placed
  backwards (`EditorInvariants.AlwaysValidExactly`; `EditorInvariants.BackwardsSelectionMisorders`).
- `replace_platform` refuses to put back a reference exactly when it holds a carriage return, which
  `app_platform_span` accepts; and what it writes reads back exactly when the reference is not empty
  (`PlatformLens.GetPut`, `PlatformLens.PutGet`; `PlatformLimits.CarriageReturnIsRefused`,
  `PlatformLimits.EmptyReferenceIsUnreadable`).
- A lazy link comes out the same for every order of its members exactly when every fork on the way rejoins
  (`ClosureConfluence.OrderFreeExactly`; `ClosureOrder.OrderCanMatter`). A condition on the members alone is enough,
  though not necessary: no name the least closed set references has two definitions
  (`ClosureOrder.OrderDoesNotMatter`).
- A family's lifetimes diverge exactly when a derivation succeeds from a copy out of date with its family, as one
  taken before the family was remembered is, although the comment at `crates/host/src/grant.rs:374` says a child
  inherits its parent's lifetime (`GrantLifetimes.AlwaysUniformExactly`; `GrantLifetimes.StaleCopyDiverges`).
- `revoke_kind` and `revoke` on each family tell the recent list to forget the same roots exactly when every
  remembered representative's root is held and its family not revoked already, and each remembered root held and
  not revoked has such a representative (`GrantWithdrawals.RunsWithdrawAlikeExactly`;
  `GrantWithdrawals.KindForgetsReleasedRoot`).

Modelling choices. Handle numbers are never reused, as every resource uses a growing `next`. A parent given to a
derivation is a value an earlier acceptance, remembrance or listing returned. The roots waiting for the recent
list are counted rather than ordered, since a revocation by kind pushes them in hash order. A revocation is three
steps: mark, take the withdrawn roots, hand them over. Grapheme starts are any set of character boundaries.
Instants are natural numbers of nanoseconds read in non-decreasing order. The classifier, the digest and the
indexing tool are function parameters, and so are the members and libraries the derivation would read from disk.

## Model

| member | source | states |
|---|---|---|
| Grants.Registry.RecordRoot | crates/host/src/grant.rs:341-358 | recording a root changes the registry as `RecordedRoot` says |
| Grants.Registry.RecordDescendant | crates/host/src/grant.rs:393-422 | a derivation succeeds and is recorded exactly when the copy carries the right and its root is not revoked |
| Grants.Registry.Accept | crates/host/src/grant.rs:441-457 | the outcome of an operation and the one counter it may move |
| Grants.Registry.IsRevoked | crates/host/src/grant.rs:463-470 | whether a held grant or its root is revoked, counting nothing |
| Grants.Registry.FlagFamilies | crates/host/src/grant.rs:500-505 | the flagging loop flags exactly the families named and counts exactly the flags it set |
| Grants.Registry.MarkRevoked | crates/host/src/grant.rs:487-508 | the first critical section of a revocation |
| Grants.Registry.MarkKindRevoked | crates/host/src/grant.rs:520-550 | the first critical section of a revocation by kind |
| Grants.Registry.TakeWithdrawnRemembered | crates/host/src/grant.rs:560-562 | the pending roots are handed out and cleared together |
| Grants.Registry.Revoke | crates/host/src/grant.rs:486-514 | a whole revocation with nothing interleaved |
| Grants.Registry.RevokeKind | crates/host/src/grant.rs:519-556 | a whole revocation by kind with nothing interleaved |
| Grants.Registry.Release | crates/host/src/grant.rs:567-573 | releasing drops a held grant, counts it, and touches no revocation |
| Grants.Registry.Remember | crates/host/src/grant.rs:580-603 | who may be remembered, and that the whole family's lifetimes change |
| Grants.Registry.ForgetKind | crates/host/src/grant.rs:631-641 | a kind's handles, its families of any kind and its revoked roots cease together |
| GrantFamilies.MarkedTwice | crates/host/src/grant.rs:496-506 | marking two sets of roots in turn is marking their union, counting nothing twice |
| GrantFamilies.RepeatCountsNothing | crates/host/src/grant.rs:496-506 | revoking a family again changes nothing and counts nothing |
| GrantFamilies.KindIsEveryFamily | crates/host/src/grant.rs:486-549 | revoking a kind leaves the flags, roots and counters of revoking representatives of each family, in any order |
| GrantFamilies.KindReachesEveryKind | crates/host/src/grant.rs:516-549 | a revocation by kind flags exactly the grants rooted in it, whatever their own kind |
| GrantWithdrawals.KindWithdrawsSameRootsExactly | crates/host/src/grant.rs:486-549 | exactly when revoking a kind and revoking representatives of each family push the same roots for the recent list |
| GrantWithdrawals.KindIsEveryFamilyExactly | crates/host/src/grant.rs:486-549 | exactly when the two leave one and the same registry |
| GrantWithdrawals.RunRootsRemembered | crates/host/src/grant.rs:393-603 | on every run, a remembered member or copy has a remembered root for as long as the root is held |
| GrantWithdrawals.RunsWithdrawAlikeExactly | crates/host/src/grant.rs:486-549 | so on runs the two agree exactly when each remembered representative's root is held and not revoked, and each such root has one |
| GrantWithdrawals.UniformReaches | crates/host/src/grant.rs:520-540 | where lifetimes are alike, a pending root always has a remembered representative |
| GrantWithdrawals.KindForgetsReleasedRoot | crates/host/src/grant.rs:524-540 | a run after which the two differ: the remembered root was released |
| GrantLineage.ChainExists | crates/host/src/grant.rs:218-235 | every grant ever recorded has a finite chain of parents to a root grant |
| GrantLineage.ChainEndsAtStoredRoot | crates/host/src/grant.rs:218-235 | every such chain repeats nothing, ends at the grant its members store as root, and has one origin |
| GrantLineage.StoredRootIsWalked | crates/host/src/grant.rs:225-234 | the stored root is exactly where the walk ends: the fast form refines the walk |
| GrantRuns.RunTraced | crates/host/src/grant.rs:308-327 | on every run, held grants and copies are history entries, and a flag is set exactly when its root is revoked |
| GrantAccounts.Accounts | crates/host/src/grant.rs:617-626 | on every run, recorded = held + released + forgotten, and the revoked counter is the number of distinct grants flagged |
| GrantAccounts.DeniedAreRefusals | crates/host/src/grant.rs:452-454 | on every run the denied counter is the number of refused operations |
| GrantAccounts.WithdrawnAreDelivered | crates/host/src/grant.rs:486-562 | under every interleaving each root pushed is handed over exactly once, and nothing is pending when no call is in progress |
| GrantRevocation.RevokedRootsAreHistory | crates/host/src/grant.rs:311-316 | the durable set holds exactly the roots the history says were revoked and not forgotten |
| GrantRevocation.AcceptedExactly | crates/host/src/grant.rs:441-457 | each outcome of an operation, exactly, in terms of the history |
| GrantRevocation.DerivesExactly | crates/host/src/grant.rs:393-422 | a copy derives exactly when it may and nothing it descends from was revoked since, however long it was held |
| GrantRevocation.RevocationIsFinal | crates/host/src/grant.rs:478-556 | after a revocation and until forgetting, no operation, remembrance or derivation of the family succeeds, and a repeat flags and counts nothing |
| GrantRevocation.OriginsAreInherited | crates/host/src/grant.rs:360-422 | every held grant and copy has the origin of its root grant |
| GrantOutcomes.RecordedIsLogged | crates/host/src/grant.rs:341-422 | from then on the history says of a grant what it was recorded with: its rights, its parent and the origin given or inherited |
| GrantOutcomes.AcceptedAsRecorded | crates/host/src/grant.rs:441-457 | an operation is accepted exactly when its grant is held, no family it descends from was revoked since, and it was recorded with every right needed; it lacks rights exactly when only that fails |
| GrantOutcomes.DerivesAsRecorded | crates/host/src/grant.rs:393-422 | a copy derives exactly when its grant was recorded with the right to and no family it descends from was revoked since |
| GrantOutcomes.RememberedExactly | crates/host/src/grant.rs:580-603 | a grant can be remembered exactly when it is held, was given from outside rather than derived or automatic, and was not revoked since; and which refusal otherwise |
| GrantOutcomes.ForgottenExactly | crates/host/src/grant.rs:631-641 | forgetting a kind ends exactly the grants of that kind and those descending from a root of it, and changes no other |
| GrantLifetimes.RememberReachesFamily | crates/host/src/grant.rs:576-603 | remembering leaves families' lifetimes alike if they were |
| GrantLifetimes.DerivationUniformExactly | crates/host/src/grant.rs:393-418 | a derivation keeps lifetimes alike exactly when its copy agrees with its family's held members, its own handle held or not |
| GrantLifetimes.AlwaysUniformExactly | crates/host/src/grant.rs:393-603 | on every run, families' lifetimes are alike throughout exactly when no step derives from a copy out of date |
| GrantLifetimes.StaleCopyDiverges | crates/host/src/grant.rs:374-418 | a run in which a copy outlives its handle and leaves a family with two lifetimes |
| GrantListing.Enumerate | crates/host/src/grant.rs:608-614 | the listing holds every held grant once, in order of identity |
| GrantListing.ListingIsUnique | crates/host/src/grant.rs:605-614 | the same registry always lists the same way |
| Rows.Viewport.constructor | crates/host/src/rows.rs:56-65 | a new viewport shows at least one row |
| Rows.Viewport.Clamp | crates/host/src/rows.rs:68-71 | clamping changes the viewport as `Clamped` says |
| Rows.Viewport.ApplyRequest | crates/host/src/rows.rs:74-103 | a request changes the viewport as `Requested` says |
| Rows.Viewport.Observe | crates/host/src/rows.rs:114-141 | a frame changes the viewport and is answered as `Observed` says |
| Rows.Viewports.Window | crates/host/src/rows.rs:158-174 | only the asked instance moves, created at its estimate if new, and its window is returned |
| Rows.Viewports.TakePendingScroll | crates/host/src/rows.rs:177-184 | a requested position is taken up once |
| Rows.Viewports.Observe | crates/host/src/rows.rs:187-200 | a frame reaches its own instance and no other |
| RowsPlacement.ClampSettles | crates/host/src/rows.rs:68-71 | clamping settles the viewport inside the list and moves it the least any settled viewport allows |
| RowsPlacement.RequestShows | crates/host/src/rows.rs:74-103 | a new request leaves a settled viewport that contains the clamped row |
| RowsPlacement.RequestIsOptimal | crates/host/src/rows.rs:83-102 | each alignment is optimal among all viewports showing the row; the nearest one moves least |
| RowsPlacement.ScrollLandsOnViewport | crates/host/src/rows.rs:74-103 | carrying out the scroll asked of the native list lands on the viewport mounted; nothing is asked exactly when nothing moves |
| RowsPlacement.RenderIsIdempotent | crates/host/src/rows.rs:158-174 | asking again with the same arguments changes nothing |
| RowsPlacement.FirstWindow | crates/host/src/rows.rs:56-174 | a list seen for the first time, with nothing asked, mounts twice its estimated height from the top |
| RowsPlacement.AppliedOnce | crates/host/src/rows.rs:74-103 | a request is taken up once: rendered again with the same serial the list stays where it was scrolled to, and a later serial is taken up |
| RowsPlacement.WindowCovers | crates/host/src/rows.rs:105-111 | the window is the visible rows and one viewport either side, within the list |
| RowsPlacement.MountedWindowIsQuiet | crates/host/src/rows.rs:107-133 | `window` and `observe` agree: a frame showing what was mounted asks for no rebuild, even when the estimate was taller than the list |
| RowsPlacement.RefreshExactly | crates/host/src/rows.rs:114-141 | a frame asks for a rebuild exactly when fewer rows than half the visible ones, or than one, remain mounted on a side where the list goes on |
| RowsPlacement.HeardExactly | crates/host/src/rows.rs:114-141 | a listener hears exactly of rows it has not heard of last, and nobody of a frame with neither that nor a rebuild to report |
| RowsPlacement.QuietFrameIsCovered | crates/host/src/rows.rs:128-130 | a frame asking for no rebuild shows only mounted rows |
| RowsPlacement.HeardOnce | crates/host/src/rows.rs:131-134 | a listener hears each range once |
| RowsPlacement.PendingScrollHolds | crates/host/src/rows.rs:121-125 | whenever a scroll was asked, a frame before it changes nothing, and the frame where it lands asks for no rebuild |
| RowsRuns.RebuildsBounded | crates/host/src/rows.rs:107-141 | on frames of `lo` to `hi` rows, rebuilds times (2 lo - hi - guard + 1) is at most the rows scrolled, and every frame's rows are mounted |
| RowsRuns.SteadyRebuildsBounded | crates/host/src/rows.rs:107-141 | when every frame shows as many, rebuilds times (rows - guard + 1) is at most the rows scrolled |
| RowsRuns.BoundIsTight | crates/host/src/rows.rs:107-141 | scrolling one stride a frame attains that bound |
| RowsRuns.RepeatIsQuiet | crates/host/src/rows.rs:107-174 | a frame drawn twice never rebuilds twice, for any list, mounted rows, request and height |
| RowsRuns.StillListIsQuiet | crates/host/src/rows.rs:107-174 | so a list that stops moving stops rebuilding, on any run of frames |
| TextUnits.ByteOffsetFromUtf16 | crates/host/src/input.rs:295-306 | the counting loop computes the byte offset of a UTF-16 offset |
| TextUnits.SizeIsEncodedLength | crates/host/src/input.rs:295-310 | the counted sizes are the lengths of the encoded text |
| TextUnits.SurrogatesReadBack | crates/host/src/input.rs:295-310 | a scalar's UTF-16 units are itself, or the two surrogates that carry it |
| TextUnits.RoundTrip | crates/host/src/input.rs:295-310 | a character boundary converted to UTF-16 and back is unchanged |
| TextUnits.LeastBoundary | crates/host/src/input.rs:448-459 | a UTF-16 offset maps to the least boundary at or past it, or the end; exactly when it is unchanged on return |
| TextInput.TextEditor.Configure | crates/host/src/input.rs:80-109 | configuring changes the editor as `Configured` says |
| TextInput.TextEditor.Acknowledge | crates/host/src/input.rs:139-152 | settling an edit changes the editor as `Acknowledged` says |
| TextInput.TextEditor.BeginAcknowledgement | crates/host/src/input.rs:154-156 | the edit being answered is recorded |
| TextInput.TextEditor.SelectTo | crates/host/src/input.rs:172-181 | selecting to an offset from the anchor |
| TextInput.TextEditor.ReplaceTextInRange | crates/host/src/input.rs:361-388 | an admitted replacement is spliced in, selected after, and sent; a refused one changes nothing |
| TextInput.TextEditor.ReplaceAndMarkTextInRange | crates/host/src/input.rs:390-420 | an admitted preedit is spliced in and marked, and not sent |
| TextInput.TextEditor.UnmarkText | crates/host/src/input.rs:354-359 | committing a preedit sends the content |
| TextInput.TextEditor.Press | crates/host/src/input.rs:198-262 | what each editing key does |
| EditorInvariants.TargetPlaced | crates/host/src/input.rs:371-383 | every slice a replacement takes is at a character boundary |
| EditorInvariants.SplicedSize | crates/host/src/input.rs:376-383 | the size of the content after a splice |
| EditorInvariants.RunAnchored | crates/host/src/input.rs:80-420 | after any run, whatever ranges the platform sent, selection and marked range are on character boundaries |
| EditorInvariants.AlwaysWithinLimitExactly | crates/host/src/input.rs:80-420 | on every run, content stays within one MiB exactly when no replacement or preedit overflows |
| EditorInvariants.AlwaysValidExactly | crates/host/src/input.rs:80-420 | on every run, limit, order and boundaries all hold throughout exactly when no operation disturbs them |
| EditorInvariants.ForwardRangesStayValid | crates/host/src/input.rs:80-420 | with ranges that run forwards, they always hold |
| EditorInvariants.LimitKeptExactly | crates/host/src/input.rs:371-416 | exactly when a replacement and a preedit keep the limit, backwards ranges included |
| EditorInvariants.BackwardsRangeOverflows | crates/host/src/input.rs:371-416 | a full editor and a backwards range that break the limit |
| EditorInvariants.BackwardsSelectionMisorders | crates/host/src/input.rs:409-414 | an empty editor and a preedit selected backwards that leave the selection backwards |
| EditorLaws.TakenExactly | crates/host/src/input.rs:361-420 | an enabled editor takes a text, whole, exactly when it is one line and the content it makes fits; otherwise, or disabled, it changes nothing |
| EditorLaws.ComposingLeavesNoTrace | crates/host/src/input.rs:361-420 | a commit in place of a preedit is the commit without it, at any forward or absent range |
| EditorLaws.PreeditReplacesPreedit | crates/host/src/input.rs:390-420 | a preedit in place of a preedit is that preedit alone |
| EditorLaws.ComposingRunLeavesNoTrace | crates/host/src/input.rs:361-420 | so after any run of preedits a commit is the commit alone |
| EditorLaws.UnmarkingCommits | crates/host/src/input.rs:354-420 | unmarking a preedit is committing it |
| EditorLaws.NothingToUnmark | crates/host/src/input.rs:354-359 | unmarking changes and sends nothing exactly with no preedit or when disabled |
| EditorLaws.TypingInPieces | crates/host/src/input.rs:361-388 | typing in two pieces is typing at once, but for what is sent on the way |
| EditorKeys.PreviousIsGreatest | crates/host/src/input.rs:183-189 | moving back goes to the greatest grapheme start before the caret, or to the beginning |
| EditorKeys.NextIsLeast | crates/host/src/input.rs:191-196 | moving on goes to the least grapheme start past the caret, or to the end |
| EditorKeys.RightThenLeft | crates/host/src/input.rs:198-212 | moving on and back returns to the grapheme the caret was at |
| EditorKeys.SelectRightThenLeft | crates/host/src/input.rs:172-220 | selecting on and back leaves the editor as it was |
| EditorKeys.ErasingIsSelecting | crates/host/src/input.rs:235-253 | from a caret, each erasing key is selecting one grapheme and erasing the selection |
| EditorKeys.MovingCollapses | crates/host/src/input.rs:198-212 | with a selection, moving back goes to its start and moving on to its end |
| EditorKeys.SelectAllReplaces | crates/host/src/input.rs:222-226 | selecting all and typing replaces everything |
| EditorKeys.NewPrepends | crates/host/src/input.rs:53-78 | a new editor's caret is at the start: typing puts the text first, or changes nothing when disabled |
| EditorKeys.HomePrepends | crates/host/src/input.rs:228-230 | going home and typing puts the text first |
| EditorKeys.EndAppends | crates/host/src/input.rs:231-234 | going to the end and typing puts it last |
| EditorKeys.BackspaceUndoesTyping | crates/host/src/input.rs:235-243 | erasing just after typing one grapheme undoes the typing |
| EditorKeys.EnterSubmits | crates/host/src/input.rs:255-262 | what was typed over everything is submitted as it is |
| EditorKeys.NothingSubmitted | crates/host/src/input.rs:255-262 | the submitting key does nothing exactly with a preedit in progress or when disabled |
| EditorKeys.DisabledKeepsAll | crates/host/src/input.rs:235-262 | disabled, the erasing and submitting keys leave even the selection |
| EditorKeys.PreeditSelectionReadsBack | crates/host/src/input.rs:409-414 | the selection asked for within a preedit reads back in its own units from where the preedit starts; with none asked the caret is after it |
| EditorSelection.SelectingWalks | crates/host/src/input.rs:172-220 | after any run of selecting keys from a caret the selection is what lies between its first place and its last, the caret at the last |
| EditorSelection.LeavingAWalk | crates/host/src/input.rs:198-212 | moving then goes to the end of the selection on that side, or one grapheme on when the walk came back |
| EditorSelection.TypingOverAWalk | crates/host/src/input.rs:361-388 | and typing replaces what lies between the two places, whichever comes first |
| EditorSelection.SelectAllThenBack | crates/host/src/input.rs:214-226 | selecting back after selecting all gives up the last grapheme |
| EditorSelection.ReversedAlwaysSelects | crates/host/src/input.rs:80-420 | on every run the caret is at the start only of a selection that holds something |
| EditorSelection.BackwardsAdmittedExactly | crates/host/src/input.rs:371-376 | a text at a backwards or empty range is admitted exactly when it is one line and fits besides all of the content |
| EditProtocol.TurnKeepsPreeditExactly | crates/host/src/input.rs:80-152 | exactly when a turn leaves a preedit in progress on screen |
| EditProtocol.StepExactly | crates/host/src/input.rs:80-156 | a step keeps what should be on screen there, and a preedit in progress, exactly when it does not clobber |
| EditProtocol.AlwaysInStepExactly | crates/host/src/input.rs:80-156 | a whole run, preedits included, shows the newest unanswered value, or the application's, exactly when no step clobbers |
| EditProtocol.DistinctEditsStayInStep | crates/host/src/input.rs:80-156 | with distinct outstanding texts and no configuration outside a turn, committed edits always stay in step |
| EditProtocol.RepeatedTextIsErased | crates/host/src/input.rs:139-152 | a run: the same text typed twice and the first rejected, and the second is erased |
| EditProtocol.RepeatedPreeditIsOverwritten | crates/host/src/input.rs:80-109 | a run: a preedit that spells the text being answered is overwritten |
| EditProtocol.EmptiedPreeditIsUnsent | crates/host/src/input.rs:390-416 | a run: a preedit given up leaves text erased that nobody was told of |
| EditProtocol.StrayConfigurationReplaces | crates/host/src/input.rs:80-109 | a run: a configuration outside any turn replaces an edit not yet answered |
| EditProtocol.AnswerKeepsCaretExactly | crates/host/src/input.rs:80-152 | an answer or a configuration that leaves the text leaves caret, selection and preedit; one that changes it puts the caret at the end and ends any preedit |
| EditProtocol.EnabledAsTold | crates/host/src/input.rs:107-118 | on every run the editor is enabled as the application last said |
| EditProtocol.DisabledIsStill | crates/host/src/input.rs:361-420 | while it is disabled no key, edit or preedit changes what is on screen or sent |
| LinkClosure.LinkMembers | scripts/windows_link_imports.py:119-146 | the linking loop terminates and computes `Closure` |
| LinkClosure.Linker.Pass | scripts/windows_link_imports.py:137-145 | one pass over the archives, and whether it made progress |
| ClosureLaws.ClosureIsSound | scripts/windows_link_imports.py:119-146 | every pulled member was needed when pulled, nothing left behind defines an unresolved name, and the results are those of the linked members |
| ClosureOrder.ClosureIsLeast | scripts/windows_link_imports.py:119-146 | what is linked is within every closed set, and is the least one when no needed name has two definitions |
| ClosureOrder.OrderDoesNotMatter | scripts/windows_link_imports.py:119-146 | then members, imports and unresolved names are the same for every order |
| ClosureOrder.OrderCanMatter | scripts/windows_link_imports.py:119-146 | with a doubly defined name the unresolved names can depend on order |
| ClosureConfluence.LinkEnds | scripts/windows_link_imports.py:119-146 | every order's link is a path of wanted pulls to an end where nothing is wanted |
| ClosureConfluence.EndIsLinked | scripts/windows_link_imports.py:119-146 | every end of such a path is what some order links |
| ClosureConfluence.OneEndExactly | scripts/windows_link_imports.py:119-146 | all paths end alike exactly when every fork on the way rejoins |
| ClosureConfluence.OrderFreeExactly | scripts/windows_link_imports.py:119-146 | so the order of members does not matter exactly when the forks rejoin |
| ImportDerivation.Require | scripts/windows_link_imports.py:217-229 | one import is added exactly when its type is supported and agrees, and otherwise the error says which fault it has |
| ImportDerivation.ProviderImports | scripts/windows_link_imports.py:149-161 | each name maps to its first provider, and only provided names are mapped |
| ImportDerivation.ResolveNames | scripts/windows_link_imports.py:265-274 | unresolved names, in order, are provided, excused or left over; an error names the first bad provider |
| ImportDerivation.Derive | scripts/windows_link_imports.py:250-282 | exactly the required imports, or the refusal that applies first and the import it names |
| DerivationLaws.NoSupplierIsTrue | scripts/windows_link_imports.py:250-278 | a refusal for names without a supplier names only names that a member of the host, startup, runtime or UCRT inputs references, that none of them defines, that no library supplies and that are not excused |
| DerivationLaws.RootNamesAreSupplied | scripts/windows_link_imports.py:250-278 | a success leaves no name of a host object or the startup object without a definition in one of those inputs, a library supplying it, or an excuse |
| DerivationLaws.EveryNameIsSupplied | scripts/windows_link_imports.py:250-277 | on success every name a linked object references is defined by an object, by an import that is required or of a UCRT DLL, by its first provider, which is required with its type, or is excused |
| DerivationLaws.LinkedImportIsRequired | scripts/windows_link_imports.py:258-264 | on success an import that is linked is required unless its DLL is a UCRT one |
| DerivationLaws.ApplicationImportsAreRequired | scripts/windows_link_imports.py:279-283 | on success every import of the application's own is required, with its type |
| DerivationLaws.NothingElseIsRequired | scripts/windows_link_imports.py:258-283 | every requirement has its type and a reason told of the inputs: an import read that a read member needs, the first provider of a name none defines, or one of the application's own |
| DerivationLaws.FirstProvider | scripts/windows_link_imports.py:149-161 | the provider of a name is the first import of the first library that supplies it |
| DerivationLaws.LowerIgnoresCase | scripts/windows_link_imports.py:217-229 | DLL names are one key exactly when they differ at most in the case of ASCII letters |
| DerivationLaws.SameKeyExactly | scripts/windows_link_imports.py:217-230 | two imports are one requirement exactly when they have one symbol and their DLL names differ at most in the case of ASCII letters |
| DerivationLaws.ImportSupplies | scripts/windows_link_imports.py:69-71 | an import supplies its address, and its symbol too unless it is a data import, and no other name |
| DerivationLaws.FirstArchiveWins | scripts/windows_link_imports.py:137-145 | a link takes a name from the first archive that supplies it |
| DerivationLaws.HostImportWins | scripts/windows_link_imports.py:254-257 | the host's own import of a name is taken before any runtime or UCRT one |
| DerivationLaws.RuntimeWins | scripts/windows_link_imports.py:253-257 | a runtime archive's import is taken before a UCRT library's |
| DerivationFaults.RefusalIsTrue | scripts/windows_link_imports.py:217-230 | a refused import is one of the inputs its error names, and is neither code nor data, or clashes with another of the inputs, exactly as the error says |
| DerivationFaults.TypesAreTrue | scripts/windows_link_imports.py:217-230 | on success every type required is code or data, and is that of the application's import |
| DerivationFaults.NoneClash | scripts/windows_link_imports.py:226-230 | and no two of the application's imports are one name of one DLL as code and as data |
| DerivationFaults.HostComesFirst | scripts/windows_link_imports.py:262-264 | an import of the host's own is refused whatever the libraries and the application's imports are |
| DerivationFaults.ApplicationComesLast | scripts/windows_link_imports.py:262-283 | whatever the link and its libraries are refused for comes before anything the application's imports could be |
| DerivationFaults.NoneIsLeftOut | scripts/windows_link_imports.py:269-277 | a refusal for names without a supplier lists exactly those of the host's and the startup object's names that have none |
| Archive.Members | scripts/windows_gnu_coff.py:45-61 | the reading loop yields the readable members and computes `Parse`, errors included |
| Archive.Write | scripts/windows_gnu_coff.py:211-218 | the writing loop writes every member, or fails exactly when some header does not fit |
| ArchiveLaws.FitsExactly | scripts/windows_gnu_coff.py:214-217 | which headers fit, in terms of the index and the size |
| ArchiveLaws.PaddedDecimalReadsBack | scripts/windows_gnu_coff.py:53-53 | a padded decimal size reads back as itself |
| ArchiveLaws.WrittenArchiveReadsBack | scripts/windows_gnu_coff.py:45-61 | parsing what was written yields exactly the bodies kept, in order |
| ArchiveGrammar.ParsesExactly | scripts/windows_gnu_coff.py:45-61 | the reader accepts data as some members exactly when it is the signature and an image of each of them, in order |
| ArchiveGrammar.SignedReadsBack | scripts/windows_gnu_coff.py:53-53 | a size reads as itself whatever white space is around it, and with its sign |
| ArchiveGrammar.DecodesExactly | scripts/windows_gnu_coff.py:56-56 | a name field decodes to a sequence of scalar values exactly when it is their UTF-8 encoding |
| ArchiveGrammar.NameIsTrimmed | scripts/windows_gnu_coff.py:56-56 | a name is what its field encodes without the white space at its ends, and all of that is gone |
| SizeFields.SizesExactly | scripts/windows_gnu_coff.py:53-53 | a size field is read exactly when it is digits grouped by single underscores, with a sign or none, and white space or none around them |
| SizeFields.NumberIsRead | scripts/windows_gnu_coff.py:53-53 | and reads as its digits do, with its sign |
| SizeFields.UnderscoresAside | scripts/windows_gnu_coff.py:53-53 | underscores make no difference to what is read |
| SizeFields.FiguresAreDecimal | scripts/windows_gnu_coff.py:53-53 | digits alone read as the number whose decimal they are, after any zeros |
| SizeFields.NamesStripWhite | scripts/windows_gnu_coff.py:56-56 | names are stripped of exactly what Python takes for white space in text |
| SizeFields.TextsAre | scripts/windows_gnu_coff.py:46-216 | the signature, the end of a header, the written names' end and the fixed fields, spelled out |
| Separation.SplitMembers | scripts/windows_gnu_coff.py:187-195 | the classifying loop computes `SplitArchive` |
| Separation.ValidateSeparation | scripts/windows_gnu_coff.py:160-197 | validating a receipt computes `Validation` |
| Separation.Separate | scripts/windows_gnu_coff.py:200-229 | separating an archive computes `Separated` |
| SeparationLaws.SplitRefusedExactly | scripts/windows_gnu_coff.py:187-195 | which refusal a split ends with: a member the classifier refuses is reported before one after it that cannot be read |
| SeparationLaws.SplitIsDescription | scripts/windows_gnu_coff.py:200-211 | a split succeeds exactly when every member is classifiable, and then describes the archive |
| SeparationLaws.ValidationExactly | scripts/windows_gnu_coff.py:160-197 | a receipt passes exactly when it describes the in-order split and both archives' identities and digests agree |
| SeparationLaws.SeparateNeverRefusesItself | scripts/windows_gnu_coff.py:219-229 | the receipt of a separation always passes its own validation |
| SeparationLaws.SeparateUnindexed | scripts/windows_gnu_coff.py:200-229 | with an inert tool, a separation succeeds exactly when the archive reads, classifies and fits |
| ReceiptLaws.FinalExactly | scripts/windows_gnu_coff.py:160-179 | without the raw archive a receipt passes exactly when it names the operation, identifies the final archive and its members' digests, and its indices are natural, none twice, those kept in order |
| ReceiptLaws.RawNeedsInventory | scripts/windows_gnu_coff.py:180-183 | a raw archive is never validated without an inventory, and never instead of the other checks |
| ReceiptLaws.SeparateRefusedExactly | scripts/windows_gnu_coff.py:200-229 | why a separation fails, exactly; its own final validation never refuses |
| IndexMembers.IndexChangesNothing | scripts/windows_gnu_coff.py:200-211 | an index member put anywhere among the members changes no body, digest or evidence kept or removed and no refusal, only the indices after it |
| IndexMembers.IndexPutIn | scripts/windows_gnu_coff.py:187-211 | the same of the archive's bytes, with the member's image put between any two |
| IndexMembers.FateExactly | scripts/windows_gnu_coff.py:187-211 | every other member, and no index member, is kept or removed with its evidence exactly as the classifier says |
| IndexMembers.IndexImage | scripts/windows_gnu_coff.py:45-61 | an index member as tools write it, its name and size padded, is a member's image |
| IndexMembers.IndexedPasses | scripts/windows_gnu_coff.py:219-221 | a written archive with index members put first still records the digests of the members kept |
| IndexMembers.SeparateIndexed | scripts/windows_gnu_coff.py:200-229 | so with a tool that puts them in, a separation succeeds exactly when the archive reads, classifies and fits |
| AppHeader.AppPlatformSpan | scripts/toolchain.py:21-52 | the token loop computes `PlatformSpan`, errors included |
| AppHeaderLaws.LexReplaced | scripts/toolchain.py:18-18 | replacing what a literal holds changes no other token |
| AppHeaderLaws.ReadReplaced | scripts/toolchain.py:21-52 | the reader ends at the replaced literal too, or refuses an unreadable one |
| PlatformLens.PutGet | scripts/toolchain.py:21-62 | reading back gives the reference put, all text outside preserved; an empty one is refused |
| PlatformLens.PutPut | scripts/toolchain.py:55-62 | a second replacement overwrites the first |
| PlatformLens.GetPut | scripts/toolchain.py:55-62 | replacing with the current value changes nothing, exactly when it holds no carriage return |
| PlatformLens.UnchangedExactly | scripts/toolchain.py:55-62 | exactly when a replacement changes nothing: not an app, or that very admitted reference |
| PlatformLens.ReplacedTwice | scripts/toolchain.py:55-62 | replacing twice is replacing once, exactly unless an app was given the empty reference |
| PlatformLimits.SmallHeaderHas | scripts/toolchain.py:18-52 | a smallest header is accepted with any one-line unescaped reference |
| PlatformLimits.CarriageReturnIsRefused | scripts/toolchain.py:59-60 | a header accepted whose own reference cannot be put back |
| PlatformLimits.EmptyReferenceIsUnreadable | scripts/toolchain.py:36-60 | a header accepted, and refused after the empty reference is put in |
| AppSeparators.SeparatorsAreTransparent | scripts/toolchain.py:18-52 | a space, tab, end of line or comment put before any piece up to the platform literal moves its span by as much and leaves the reference |
| AppSeparators.PlatformMoved | scripts/toolchain.py:21-52 | padding tokens anywhere up to the literal leaves the same refusal, the same absence, or the literal moved as far |
| AppSeparators.ObservatoryHas | scripts/toolchain.py:21-52 | a header as people write it, with spaces between its tokens, is accepted with any one-line unescaped reference, at its place |
| AppLexer.LexExactly | scripts/toolchain.py:18-18 | the lexer cuts a text into exactly those pieces each of which is a comment, a closed literal, a stray quote, a whole name or one character, given the text after it; there is one way to |
| AppLexer.SkippedExactly | scripts/toolchain.py:18-23 | exactly white space and comments are no tokens |
| AppGrammar.HeaderIsAccepted | scripts/toolchain.py:21-52 | whatever tokens spell a header of the grammar are accepted, at its literal |
| AppParsing.AcceptedExactly | scripts/toolchain.py:21-52 | tokens are accepted exactly when they spell a header: balanced brackets, no record before the header's, and in that one dependency on a platform, with its literal |
| AppParsing.RefusalIsTrue | scripts/toolchain.py:21-52 | each refusal is true of the tokens: a bracket mismatched, a platform without its literal, none or several platforms, or the tokens end |
| AppTokens.TokensAreRead | scripts/toolchain.py:22-23 | white space and comments make no difference to what is read, anywhere |
| AppTokens.PlatformExactly | scripts/toolchain.py:21-52 | a source has its platform at a piece exactly when its tokens spell a header and that piece is its literal |
| AppTokens.RefusedTruly | scripts/toolchain.py:21-52 | a source is left alone exactly when its first token is not app, and refused only for what is true of its tokens |
| ArgvBatches.Batches | scripts/run_specs.py:44-61 | non-empty fitting batches in order, the fewest possible; an error exactly when some argument cannot fit |
| ArgvBatches.MaximalIsFewest | scripts/run_specs.py:44-61 | a split no batch of which could take the next argument needs no more batches than any other |
| ArgvBatches.FitsExactly | scripts/run_specs.py:44-61 | a batch fits exactly when what is reserved and its arguments, each with one separator, are no longer than the budget |
| MetadataGraph.Walk | scripts/cargo_build_evidence.py:42-51 | the worklist terminates with exactly the reachable identities, or an error exactly when one lacks a node or package |
| MetadataGraph.MetadataGraph | scripts/cargo_build_evidence.py:29-52 | each refusal exactly when its fault comes first, and otherwise the host root and what it reaches |
| GraphLaws.DevelopmentDoesNotMatter | scripts/cargo_build_evidence.py:50-51 | a dependency only of development kind changes nothing that is reached, whatever node it is added to |
| GraphLaws.AnyOtherKindIsFollowed | scripts/cargo_build_evidence.py:50-51 | one of any other kind besides makes reachable exactly what its package reaches, once its node is reached |
| GraphLaws.NamesakeIsNotHost | scripts/cargo_build_evidence.py:34-36 | a package of another name, or from a registry, is never the host |
| GraphLaws.WorkspaceNamesakeIsHost | scripts/cargo_build_evidence.py:34-36 | a workspace package of the host's name is the host exactly when it is listed and there is no other |
| ChooserGate.Store.Configure | crates/host/src/files.rs:90-133 | configuring resets the gate, or is refused for a path that conflicts or cannot be opened and changes nothing |
| ChooserGate.Store.BeginPick | crates/host/src/files.rs:863-881 | the first critical section of a pick |
| ChooserGate.Store.EndPick | crates/host/src/files.rs:899-912 | the second critical section of a pick |
| ChooserGate.SingleFlight | crates/host/src/files.rs:861-911 | under every interleaving at most one chooser is open and the counters conserve, exactly when no configuration lands under an open chooser |
| ChooserGate.ResetOpensTwo | crates/host/src/files.rs:111-119 | a configuration under an open chooser lets a second open |
| ChooserGate.EachResetOpensOne | crates/host/src/files.rs:111-122 | on every run, each configuration under an open chooser costs at most one chooser more |
| ChooserGate.NoPromptInCooldown | crates/host/src/files.rs:61-68 | no chooser opens within the cooldown of a refusal, unless reconfigured since |
| ChooserGate.OpensExactly | crates/host/src/files.rs:861-881 | exactly when a chooser opens, until a configuration lands under an open one |
| GateHistory.CountersExactly | crates/host/src/files.rs:861-911 | on every run each counter is how often what it counts happened since the last configuration |
| GateHistory.CooldownExactly | crates/host/src/files.rs:899-911 | the cooldown ends two seconds after the last refusal since then, and there is none without one |
| GateHistory.InFlightExactly | crates/host/src/files.rs:861-911 | a chooser is in flight exactly when the last put on screen since then has not answered |
| GateHistory.SettingsExactly | crates/host/src/files.rs:90-133 | the portal and cancelling settings are those of the last configuration, on every run |

## Left out

- Counters and handle numbers are unbounded naturals: overflow of the registry's and the gate's `u64` counters is not modelled.
- ImportDerivation: locating libraries, running Zig and dlltool, writing the definition text, and comparing the produced members with the requirements.
- Separation.Separate: does not model how a member is classified byte by byte, how bytes are hashed, or how an archive is indexed; these are parameters.
- Archive: `archive_inventory` is not part of this model; it adds a dictionary of what the classifier, a parameter here, reads again.
- TextInput.TextEditor: mouse selection and layout are not modelled, because the index of a position comes from a native shaped line.
- TextInput: what becomes of an edit after the limit has already been broken, when the source's subtraction would wrap.
- TextInput: placeholder, focus and tab stops, which no edit depends on.
- Grants: the rendering of a grant as text.
- Grants: waking watches between the steps of a revocation, which only asks the registry questions.
- RowsPlacement.ScrollLandsOnViewport: does not model how the native list scrolls; the viewport mounted is the one nearest the edge it is asked for.
- Rows: retiring viewports, the event slot and the turn counter around a dispatch.
- MetadataGraph: reading JSON; the workspace, packages and nodes are given as sequences.
- The COFF template matching, audio, HTTP, clipboard, device, SQLite and release scripts: input, output and fixed inventories.
