# NetFleet: models and proofs of its protocols and rule algebra

NetFleet manages fleets of routers and Linux hosts. This project models the parts of its backend
whose correctness cannot be read off one function, and proves what they promise for every input,
every run or every reachable state:

- the **lockout guard**, a protocol between the API process, a database row and a dead-man timer on
  the managed host (`GuardHost`, `GuardProtocol`, `GuardInvariant`,
  `GuardOutcomes`, `ChangeGuard`, `GuardLimits`);
- the **ufw rule algebra**: first-match verdicts, projections of edits, folding of IPv4 and IPv6
  halves, the rule printer and the two readers (`UfwPorts`, `UfwRules`, `UfwHost`, `UfwFold`,
  `UfwSpec`, `UfwRoundTrip`, with string helpers in `Text`);
- **refresh-token rotation** and the **TOTP guards** (`RefreshTokens`, `Totp`);
- the **permission check**, the three views derived from the same assignments, and the request-access
  workflow that edits them (`Rbac`, `AccessMap`, `AccessDuality`, `AccessRequests`);
- the **migration-lock watcher** (`MigrationLocks`) and the **RouterOS quoter** (`RouterOsQuote`).

Code that updates rows, objects or a host is a class whose methods are proved against specification
functions; the theorems are about those functions and about all runs of them. Code made of
expressions is functions and lemmas.

## Hypotheses

- *Guard.* The token is new on the host. In a lawful run the change lands while the timer is armed,
  its snapshot is whole and no operator is restoring, and `apply` raises only before it has touched
  the host; results that need neither say so. A fired script runs to its end. One guarded run per
  host at a time. One batch of cancel commands is one step, together with the record that an
  operator's call makes right after it. Everything else is free: any command may fail, or take effect
  and report failure; the process may die between any two steps; the timer may fire and any number
  of operators may act between any two steps, including between two lines of any restore under way.
- *ufw.* `ufw insert N` accepts 1 to count + 1 and skips a rule already present. Whether an address
  lies in a network, and which texts name a network, are parameters of the statements. `\d` is the
  ASCII digits and lower-casing is ASCII.
- *Tokens and TOTP.* One service call is one atomic, durable step. Token ids count up in the order of
  minting. The bound on guesses needs a clock that does not go back; which code belongs to which
  step is a parameter.
- *Permissions.* Ids are keys; a site names a tenant and a device names a site of its own
  organization; an assignment below organization scope names what it is scoped to.

## What the proofs found

- A change that raises half way is disarmed, recorded as rolled back and left on the host
  (`HalfAppliedChangeEscapes`; exactly when: `RaiseKeepsGuardExactly`).
- The comment in `_best_effort_cancel` calls a failed cancel noisy but not harmful. After a passed
  probe it is not: the timer undoes the confirmed change (`ConfirmedThenReverted`; exactly when:
  `VerifiedSurvivesExactly`).
- An expired row says the host restored itself. It may not have: a `confirm` that raises may have
  removed the snapshot all the same (`FailedConfirmStrands`, `FailedConfirmExactly`), and a process
  may die between the cancel after a passed probe and its record (`VerifiedThenExpired`). Letting the
  change go in one of these two ways is the only exception (`ExpiredIsTrue`).
- Arming does not insist on the copy of `ufw.conf`, which its own comment calls the one that must
  exist; without it the on/off state is not restored (`OnOffLostWithoutConf`; exactly when:
  `OnOffRestoredExactly`).
- `_resolve` does not look at the row again, so an operator's `confirm` during a restore, the run's or
  another operator's, ends in a recorded rollback of files that were not restored
  (`ConfirmRacesRestore`; exactly when: `RolledBackExactly`, `RestoreExactly`).
- The projection of an edit differs from what the commands leave when the position is below the
  rule's own slot, or when there is none and the rule is not last; it can then call a lockout safe
  (`EditProjectionExact`, `MisjudgedEditExists`; exactly when: `PlacedEditMisjudgedExactly`,
  `UnplacedEditMisjudgedExactly`).
- A default policy of reject shuts NetFleet out as deny does, and is not counted as a lockout
  (`FallThroughExactly`).
- A move that raises leaves the rule gone exactly when its delete took effect and its insert did not:
  past the end always, in range when the insert never ran or was refused (`Host.RuleMove`). In
  between, NetFleet may be cut off (`MoveGapExactly`).
- Restoring a rule that is already there changes nothing and still reports a slot (`Host.RuleRestore`).
- The port and interface patterns let one final newline through; an interface called `comment` makes
  the delete command name another rule and takes every column away from the reader
  (`DeleteNamesTheRule`, `InterfaceReadExactly`).
- Folding drops an earlier position when a key repeats within one family (`PositionSurvivesExactly`).
- Logout does not reach siblings minted in the grace window (`SiblingOutlivesSignOut`; what it does
  reach: `SignOutKillsExactly`).
- Approving a role whose old row has expired records an approval and grants nothing
  (`ExpiredRowShadowsApproval`; exactly when: `ApprovalDelivers`).

## Model

| member | source | states |
|---|---|---|
| `GuardHost.ScriptOverlays` | backend/app/drivers/linux.py:1990-2022 | the restore script, run to the end, lays exactly the captured files over whatever the files have become, reloads from the result and removes the snapshot |
| `GuardHost.FiringIsIdempotent` | backend/app/drivers/linux.py:2007-2022 | a fired script is that overlay, and firing again changes nothing |
| `GuardHost.CutScript` | backend/app/drivers/linux.py:1146-1154 | a restore cut after any line leaves the snapshot whole or the host back on it, and never undoes a file already back |
| `GuardHost.LineAdvances` | backend/app/drivers/linux.py:2011-2021 | each script line makes progress with the snapshot in front of it or the files already back |
| `GuardHost.LineKeepsProgress` | backend/app/drivers/linux.py:2011-2021 | two scripts running at once, line by line, do not disturb each other |
| `GuardHost.OverlayIsBack` | backend/app/drivers/linux.py:2011-2020 | an overlay puts every captured file back and loads it; over a host already back it changes no file |
| `GuardHost.EnabledLines` | backend/app/drivers/linux.py:2016-2020 | the marker that turns the firewall on counts at the start of the text or of a line and nowhere else |
| `GuardInvariant.StepSound` | backend/app/services/change_guard.py:78-188 | every step of the run, of the host and of operators keeps the protocol's invariant |
| `GuardInvariant.AlwaysProtected` | backend/app/services/change_guard.py:78-188 | in every run, until a fresh probe succeeds or an operator's cancel reaches the host, a touched host has the armed timer with its snapshot or is back on it; left alone until the timer fires, it is back |
| `GuardInvariant.UntouchedUntilMutated` | backend/app/services/change_guard.py:128-143 | while the change has not landed, arming, firing and restoring leave the files as they were; a raise reaches the cancel only then |
| `GuardOutcomes.RolledBackIsFinal` | backend/app/services/change_guard.py:157-177 | a rollback recorded while nothing was let go leaves each captured file, the on/off state and the loaded rules as at arming time, with no timer left, and no later lawful step of any kind changes files or live ruleset |
| `GuardOutcomes.RolledBackExactly` | backend/app/services/change_guard.py:157-219 | over a whole lawful run, a rollback recorded by the run or by an operator is one, finally, if and only if no cancel took the snapshot from a host that was not back; nothing is left to fire in either case |
| `GuardOutcomes.RestoreExactly` | backend/app/services/change_guard.py:157-219 | the same for restores that begin in any state of any run, whatever the change did before and whoever let it go |
| `GuardOutcomes.RestoringIsLawful` | backend/app/services/change_guard.py:157-177 | once the run's own restore has begun, every run meets the hypotheses |
| `GuardInvariant.IntactStep` | backend/app/services/change_guard.py:157-219 | every lawful step that takes no needed snapshot away keeps all restores under way at work and recorded ones true |
| `GuardOutcomes.OnOffRestoredExactly` | backend/app/drivers/linux.py:1106-1114 | settled when the change ends: a later unreleased rollback has the on/off state of arming time if and only if ufw.conf was captured or the change left its setting alone |
| `GuardOutcomes.RestoreWithoutSnapshotExactly` | backend/app/services/change_guard.py:157-219 | with the snapshot gone while scripts have work left, a rollback recorded later is one if and only if the files matched the snapshot already |
| `GuardInvariant.StepFramed` | backend/app/services/change_guard.py:78-188 | what every step keeps without any hypothesis: captured copies are those of arming time, and untouched files stay so |
| `GuardOutcomes.WhollyRestored` | backend/app/drivers/linux.py:1980-1982 | with every file captured and none added, files and ruleset are those of arming time |
| `GuardOutcomes.ResolvedStep` | backend/app/services/change_guard.py:280-306 | the sweep and confirmations never change a resolved row; only the run's own record does, or an operator's restore begun while it was armed |
| `GuardOutcomes.ResolvedOnce` | backend/app/services/change_guard.py:191-259 | over every run a resolved row stays resolved, and never changes once the guarded run is over or dead and no operator's restore is under way |
| `GuardOutcomes.ExpiredIsTrue` | backend/app/services/change_guard.py:234-256 | over every lawful run, an expired row of a change nobody let go is true as soon as nothing is pending: the files are untouched or as armed |
| `GuardLimits.RaiseKeepsGuardExactly` | backend/app/services/change_guard.py:129-143 | the guarantee survives the cancel after a raise if and only if the host was untouched, is back, or the cancel reached nothing |
| `GuardLimits.VerifiedSurvivesExactly` | backend/app/services/change_guard.py:271-277 | a verified change survives the timer if and only if the cancel stopped it or removed the snapshot, or no captured file changed |
| `GuardLimits.FailedConfirmExactly` | backend/app/drivers/linux.py:1117-1144 | a confirmation that raises keeps the window if and only if it neither stopped nor removed anything |
| `GuardLimits.HalfAppliedChangeEscapes` | backend/app/services/change_guard.py:129-143 | on every host, every change of a captured file that raises half way can end recorded as rolled back, disarmed and still applied |
| `GuardLimits.ConfirmedThenReverted` | backend/app/services/change_guard.py:145-150 | on every host, a confirmed change can still be undone by the timer |
| `GuardLimits.FailedConfirmStrands` | backend/app/services/change_guard.py:191-202 | on every host, a failed confirmation can end in an expired row over a host that was not restored |
| `GuardLimits.VerifiedThenExpired` | backend/app/services/change_guard.py:145-149 | on every host, so can a process that dies between a passed probe's cancel and its record |
| `GuardLimits.OnOffLostWithoutConf` | backend/app/drivers/linux.py:1106-1114 | on every host, with ufw.conf not captured, a recorded rollback can leave the firewall on where it was off, or off where it was on |
| `GuardLimits.ConfirmRacesRestore` | backend/app/services/change_guard.py:280-289 | on every host, a confirmation during the run's own restore can end in a recorded rollback of unrestored files |
| `ChangeGuard.GuardedChange.RunGuarded` | backend/app/services/change_guard.py:78-188 | whatever the timer and operators do between its steps and whatever the change does, the outcome is the one the replies call for; while the change kept its side it is true of host and row: untouched files, a confirmed row, a rollback that is one exactly when no cancel did harm and then brings back every file a copy command got hold of, or a host that is back or will be |
| `ChangeGuard.GuardedChange.Arm` | backend/app/drivers/linux.py:1054-1115 | the batch may break at any command; armed if and only if directory, script and timer were all reported, and then the timer stands with a whole snapshot that holds every file a copy command got hold of |
| `ChangeGuard.GuardedChange.Apply` | backend/app/services/change_guard.py:128-130 | any writes, whenever they land, and a raise at any point; the last write is on the host, and which of these break the hypotheses is tracked |
| `ChangeGuard.GuardedChange.Restore` | backend/app/drivers/linux.py:1146-1154 | line by line with the world acting in between; restored only if the script ended and the stop was reported, and then not restored only if the snapshot was gone |
| `ChangeGuard.GuardedChange.Confirm` | backend/app/services/change_guard.py:191-202 | refused exactly when the row is not armed, done exactly when the stop was reported; what the cancel reached, and nothing else on the host, is gone |
| `ChangeGuard.GuardedChange.Rollback` | backend/app/services/change_guard.py:205-219 | line by line with the world acting in between; refused exactly when the row is not armed, done exactly when the script was there, ended and the stop was reported; done means no timer, and a restored host exactly when no cancel did harm |
| `ChangeGuard.GuardTable.ExpireStaleGuards` | backend/app/services/change_guard.py:234-256 | over the whole table: closes exactly the armed rows whose window has passed, counts them and leaves none behind |
| `ChangeGuard.SweptIsReachable` | backend/app/services/change_guard.py:234-256 | sweeping a row is a step of its guard's protocol and leaves the host alone |
| `UfwPorts.PortMatchesUnion` | backend/app/drivers/linux.py:2185-2198 | the matcher accepts exactly the ports in the union of the listed numbers and ranges |
| `UfwPorts.AcceptedPortMeansItsUnion` | backend/app/drivers/linux.py:2031 | every text the pattern accepts is the text of some list of entries, and matches exactly their union |
| `UfwPorts.ReadItemsComplete` | backend/app/drivers/linux.py:2031 | every list of valid entries is accepted and read as itself |
| `UfwPorts.PortGrammar` | backend/app/drivers/linux.py:2031 | a port alone is accepted if and only if it is one to five digits |
| `UfwPorts.RangeGrammar` | backend/app/drivers/linux.py:2031 | a range is accepted if and only if both its ends are |
| `UfwPorts.ListGrammar` | backend/app/drivers/linux.py:2031 | a list is accepted if and only if its parts are |
| `UfwPorts.DestinationRoundTrip` | backend/app/drivers/linux.py:2174-2182 | going through the "port" or "port/proto" column returns the selector and changes no answer |
| `UfwRules.VerdictIsFirstMatch` | backend/app/drivers/linux.py:2262-2275 | the verdict is the first matching rule's, and the default exactly when none matches |
| `UfwRules.FirstMatchDecides` | backend/app/drivers/linux.py:2262-2275 | under every default policy, a first match that allows or limits is no lockout and one that denies or rejects is |
| `UfwRules.FallThroughExactly` | backend/app/drivers/linux.py:2340-2357 | a known path that no rule matches is locked out if and only if the default policy is deny, in any letter case, empty or not reported |
| `UfwRules.UnknownPathIsNoLockout` | backend/app/drivers/linux.py:2349-2352 | nothing is called a lockout for a path that was not observed |
| `UfwRules.RuleMatchesExactly` | backend/app/drivers/linux.py:2219-2231 | a rule for ports and a network matches exactly the incoming connections to those ports from that network |
| `UfwRules.OverlapVerdict` | backend/app/drivers/linux.py:839-874 | with both rules of an edit present, the verdict is the one before or the one after |
| `UfwRules.OverlapNeverLocksOut` | backend/app/drivers/linux.py:2340-2357 | if neither the ruleset before nor the one after locks NetFleet out, the overlap does not, for all rules, positions, paths and policies |
| `UfwRules.MoveWindow` | backend/app/drivers/linux.py:876-902 | between a move's two commands NetFleet is cut off only if the moved rule let it in at both ends |
| `UfwRules.MoveGapExactly` | backend/app/drivers/linux.py:876-902 | from a safe ruleset, the gap of a move cuts NetFleet off if and only if the moved rule let it in, nothing above decides and the rest shuts it out |
| `UfwRules.DeletedIsOneRule` | backend/app/drivers/linux.py:2302-2303 | with distinct specs, deleting by spec removes that rule and no other |
| `UfwRules.MoveIsDeleteThenInsert` | backend/app/drivers/linux.py:2331-2337 | a move's projection is the deletion followed by the insertion |
| `UfwRules.MovePermutes` | backend/app/drivers/linux.py:2331-2337 | a move permutes the ruleset and puts the rule at the slot asked for |
| `UfwRules.MoveKeepsTheRest` | backend/app/drivers/linux.py:2331-2337 | a move leaves every other rule in its order |
| `UfwRules.EditProjectionExact` | backend/app/drivers/linux.py:2317-2328 | the edit projection is what the commands leave if and only if the position is at or above the own slot or past the end, or there is none and the rule is last |
| `UfwRules.DisableThenEnable` | backend/app/drivers/linux.py:2302-2314 | switching a rule off and restoring it at its remembered slot is the identity |
| `UfwRules.LandingSlot` | backend/app/drivers/linux.py:915-916 | the clamped slot is in range and is the projection's index plus one |
| `UfwHost.Host.Insert` | backend/app/drivers/linux.py:858-870 | under every fate of the connection: status 0 means a rule with that spec is present, a refusal changes nothing, and the other rules keep their order |
| `UfwHost.Host.Delete` | backend/app/drivers/linux.py:923-934 | under every fate of the connection: status 0 means no rule with that spec is left, a refusal changes nothing, and no other rule is lost or added |
| `UfwHost.Host.RuleReplace` | backend/app/drivers/linux.py:839-874 | when exactly it succeeds, and what that leaves; no ruleset enforced on the way locks NetFleet out if the first and the intended last do not, nor if the projection is safe where it is right; an edit into an existing rule changes nothing |
| `UfwHost.Host.ReplaceCommands` | backend/app/drivers/linux.py:855-874 | every ruleset the edit enforces is the old one, the overlap or the intended last one |
| `UfwHost.Host.RuleMove` | backend/app/drivers/linux.py:876-902 | when exactly it succeeds, and that this equals the projection; a raise leaves the old, the deleted or the moved ruleset, and which; a ruleset that cuts NetFleet off is enforced exactly when the gap does |
| `UfwHost.Host.MoveCommands` | backend/app/drivers/linux.py:888-902 | every ruleset a move enforces is the old one, the gap or the new one |
| `UfwHost.Host.RuleRestore` | backend/app/drivers/linux.py:904-921 | for a rule not already there, the reported slot is where it is and the ruleset is the projected one; for one already there nothing changes |
| `UfwHost.EditBelowOwnSlotMisjudged` | backend/app/drivers/linux.py:2317-2328 | a family of edits below the own slot that the projection calls safe and the commands turn into a lockout |
| `UfwHost.UnplacedEditMisjudged` | backend/app/drivers/linux.py:2317-2328 | a family of edits without a position with the same fault |
| `UfwHost.PlacedEditMisjudgedExactly` | backend/app/drivers/linux.py:2317-2328 | for all rulesets, an edit at a position is misjudged if and only if the new rule is not there yet, the position is below the own slot, the new rule shuts NetFleet out, nothing above decides and the rule now there lets it in |
| `UfwHost.UnplacedEditMisjudgedExactly` | backend/app/drivers/linux.py:2317-2328 | for all rulesets, an edit without a position is misjudged if and only if the new rule is not there yet and lets NetFleet in, nothing above decides and what is below shuts it out |
| `UfwHost.MisjudgedEditExists` | backend/app/drivers/linux.py:2317-2328 | both families are inhabited |
| `UfwFold.FoldKeys` | backend/app/drivers/linux.py:2574-2604 | folding leaves one entry per key, in first-occurrence order |
| `UfwFold.FirstSeenOrder` | backend/app/drivers/linux.py:2574-2604 | that order has the same keys, each once, sorted by first occurrence |
| `UfwFold.FoldPreservesVerdict` | backend/app/drivers/linux.py:2574-2604 | every management path gets the same verdict from the folded list as from the full one |
| `UfwFold.FoldPositions` | backend/app/drivers/linux.py:2592-2603 | each entry holds, per family, the last number its key had there, and "both" exactly when the key repeats |
| `UfwFold.EntryIsFirstRow` | backend/app/drivers/linux.py:2592-2603 | each entry is the first row with its key in all but the numbers, and keeps its own family when it found no partner |
| `UfwFold.PositionSurvivesExactly` | backend/app/drivers/linux.py:2592-2603 | a position survives if and only if no later row has its key and family; then it is in the entry of its key and its own family's field, and in no other entry or field |
| `UfwFold.PositionHasSource` | backend/app/drivers/linux.py:2592-2603 | the fold invents no position |
| `UfwFold.FoldRow` | backend/app/drivers/linux.py:2583-2603 | one turn of the loop on the row objects is one step of the fold, and the dictionary still finds every kept row |
| `UfwFold.PairRules` | backend/app/drivers/linux.py:2574-2604 | the in-place loop returns input objects showing the fold of what the input showed |
| `UfwSpec.ReadRule` | backend/app/drivers/linux.py:2645-2714 | the index-advancing reader computes the recursive reader, whose round trips are proved below |
| `UfwRoundTrip.PrintedTokens` | backend/app/drivers/linux.py:2082-2115 | joining a printed rule and splitting it gives its words back, newline-trimmed, the comment broken into words |
| `UfwRoundTrip.AcceptedExactly` | backend/app/drivers/linux.py:2054-2079 | which specs are accepted, said without the validator |
| `UfwRoundTrip.CommandWrittenOut` | backend/app/drivers/linux.py:2093-2115 | the order of a built command: route, position, action, direction, clauses |
| `UfwRoundTrip.FullClauses` | backend/app/drivers/linux.py:2105-2114 | the clauses of a rule that asks for everything, word by word |
| `UfwRoundTrip.BareClauses` | backend/app/drivers/linux.py:2105-2114 | the clauses of a rule that asks for nothing |
| `UfwRoundTrip.DecimalReads` | backend/app/drivers/linux.py:2101 | a printed position reads back as itself |
| `UfwRoundTrip.NumbersAreDecimal` | backend/app/drivers/linux.py:2185-2198 | numbers are read in base ten |
| `UfwRoundTrip.BuiltPosition` | backend/app/drivers/linux.py:2098-2101 | a command is built if and only if spec and position are valid, and asks for the position given |
| `UfwRoundTrip.StoredLineCommands` | backend/app/drivers/linux.py:2118-2171 | a stored line becomes an insert or a delete if and only if it names a rule, and the insert asks for the position given |
| `UfwRoundTrip.ReinsertRebuilds` | backend/app/drivers/linux.py:2118-2141 | re-inserting the printed text rebuilds the positioned command if and only if the comment is one word and no field ends in a newline |
| `UfwRoundTrip.DeleteNamesTheRule` | backend/app/drivers/linux.py:2144-2171 | the delete command for a printed rule names that rule if and only if its interface is not called comment |
| `UfwRoundTrip.PrintThenRead` | backend/app/drivers/linux.py:2645-2714 | reading a printed rule recovers action, direction, interface, source, destination and port selector, the comment up to spacing and quotes, and its family and text |
| `UfwRoundTrip.InterfaceReadExactly` | backend/app/drivers/linux.py:2658-2685 | the interface is recovered if and only if it is not called comment; one that is takes every column after it away |
| `UfwRoundTrip.PlainCommentSurvives` | backend/app/drivers/linux.py:2658-2662 | a one-word comment without quotes at its ends is recovered as it is |
| `UfwRoundTrip.QuotesStripped` | backend/app/drivers/linux.py:2661 | the quotes at both ends of a comment go, all of them and nothing else |
| `UfwRoundTrip.ActionReadInSmall` | backend/app/drivers/linux.py:2669 | the action of a stored line is read in small letters, whatever follows it |
| `UfwRoundTrip.CoverageAgrees` | backend/app/drivers/linux.py:2244-2299 | the rule read back, the projected rule and the spec agree, for every path, on matching and on letting it in |
| `RefreshTokens.ApplyKeeps` | backend/app/services/auth.py:307-413 | every call keeps links injective, forward, within one user and session, and writes revocation and replacement once |
| `RefreshTokens.RunKeeps` | backend/app/services/auth.py:307-413 | so does every run |
| `RefreshTokens.WalkIsExact` | backend/app/services/auth.py:381-396 | the bounded walk says live if and only if the chain's tip is within its hops, unrevoked and unexpired |
| `RefreshTokens.DeadIsRefused` | backend/app/services/auth.py:307-347 | a token on a chain ended by revocation is refused at any time |
| `RefreshTokens.DeadForever` | backend/app/services/auth.py:307-413 | and stays refused after every further run |
| `RefreshTokens.NoResurrection` | backend/app/services/auth.py:408-413 | once every token of a user is revoked, no run without a new sign-in mints a token for that user |
| `RefreshTokens.NothingAfterRevokeAll` | backend/app/services/auth.py:408-413 | after revoke-all, no run without a new sign-in mints a token for that user, and each of theirs is refused at any time |
| `RefreshTokens.ReplayEndsEverything` | backend/app/services/auth.py:325-330 | presenting a token rotated away more than 60 s ago mints nothing, revokes every token of its user and touches no one else's |
| `RefreshTokens.NothingAfterReplay` | backend/app/services/auth.py:325-330 | after that no run without a new sign-in mints a token for that user |
| `RefreshTokens.MintsExactly` | backend/app/services/auth.py:318-346 | a presented token mints another if and only if its user is active and it is unexpired and current, or rotated away within 60 s with a live tip at most 31 links on; otherwise, unless it is a replay, nothing changes |
| `RefreshTokens.MintIsExact` | backend/app/services/auth.py:348-373 | the whole table after a mint: who is linked, revoked and added, with which expiry and session |
| `RefreshTokens.EndSessionExactly` | backend/app/api/v1/audit.py:265-305 | ending a session revokes its unrevoked tokens and no others |
| `RefreshTokens.SignOutKillsExactly` | backend/app/services/auth.py:399-405 | signing out with any token, fresh or stale, kills exactly the chains whose newest token it is |
| `RefreshTokens.SignOutKillsChain` | backend/app/services/auth.py:399-405 | signing out with the newest token kills every token of its chain |
| `RefreshTokens.SiblingOutlivesSignOut` | backend/app/services/auth.py:330-373 | a run in which a grace sibling outlives the sign-out of its session |
| `RefreshTokens.MintedBelongs` | backend/app/services/auth.py:348-373 | a minted token has the presented one's user and session, and a sibling never outlives the token it came from |
| `RefreshTokens.TokenTable.WalkChain` | backend/app/services/auth.py:381-396 | the loop computes the bounded walk |
| `RefreshTokens.TokenTable.IssueRefreshToken` | backend/app/services/auth.py:271-298 | the new token is accepted at once, every other row is as it was, and links stay valid |
| `RefreshTokens.TokenTable.RotateRefreshToken` | backend/app/services/auth.py:307-373 | the whole new table and answer; a replay revokes all of the user's tokens; a mint happens exactly for an active user's exchangeable token |
| `RefreshTokens.TokenTable.RevokeRefreshToken` | backend/app/services/auth.py:399-405 | kills exactly the chains whose newest token was presented, and writes nothing twice |
| `RefreshTokens.TokenTable.RevokeAllForUser` | backend/app/services/auth.py:408-413 | revokes exactly the user's unrevoked tokens |
| `Totp.MatchingStep` | backend/app/services/auth.py:158-165 | finds a step within one of the clock's for which the code is valid, or there is none |
| `Totp.User.Verify` | backend/app/services/auth.py:168-208 | locked exactly while the lock is ahead; otherwise wrong exactly when the code is valid for no step near the clock, and then counted or locked for 15 minutes at the fifth; accepted whenever every such step is above the last one accepted, with counter and lock cleared; a locked or replayed code changes nothing |
| `Totp.OutcomeExactly` | backend/app/services/auth.py:185-207 | each of the four outcomes if and only if its condition on lock, matched step and last step holds |
| `Totp.CounterStaysBelow` | backend/app/services/auth.py:193-206 | the failure counter of every reachable user is below the limit |
| `Totp.GuessesAreBounded` | backend/app/services/auth.py:154-208 | from any reachable state, with no accepted code, at most 5·(⌊T / 15 min⌋ + 1) wrong codes are evaluated in a span T |
| `Totp.BoundIsTight` | backend/app/services/auth.py:154-208 | for every start and span, tries that meet the bound |
| `Totp.AcceptedIncrease` | backend/app/services/auth.py:158-208 | accepted steps strictly increase over a user's life (section 5.2 of RFC 6238) |
| `Totp.LoginsAreBounded` | backend/app/services/auth.py:158-208 | between clock steps b0 and b1 at most b1 − b0 + 3 codes are accepted |
| `Rbac.Check` | backend/app/services/rbac.py:101-140 | the early-returning loop allows exactly what some unexpired, covering, granting assignment allows |
| `Rbac.CanExactly` | backend/app/services/rbac.py:101-140 | the check, read off the tables: administrator, or an unexpired assignment of the user over the place to a role with a permission for section and action, either of which may be a star |
| `Rbac.ReachesByAssignment` | backend/app/services/rbac.py:265-289 | some pair is allowed at a place if and only if an unexpired assignment with a non-empty role covers it |
| `Rbac.CollectVisibility` | backend/app/services/rbac.py:195-220 | everything exactly for administrators and organization scope; otherwise exactly the assigned ids |
| `Rbac.ExpandDevices` | backend/app/services/rbac.py:223-250 | the device pass adds each seen device, its site and its tenant, and nothing else |
| `Rbac.ExpandSites` | backend/app/services/rbac.py:245-259 | the site pass finds the sites under visible tenants and the tenants over visible sites |
| `Rbac.VisibleIds` | backend/app/services/rbac.py:223-259 | the loops compute the view the next three are about |
| `Rbac.DeviceListedIffReached` | backend/app/services/rbac.py:186-259 | a device of the organization is listed if and only if some section and action are allowed on it |
| `Rbac.SiteListedIffReached` | backend/app/services/rbac.py:223-259 | a site is listed if and only if something is allowed on it or a device in it is listed |
| `Rbac.TenantListedIffReached` | backend/app/services/rbac.py:223-259 | a tenant is listed if and only if something is allowed on it or a site under it is listed |
| `AccessMap.WhoHasAccess` | backend/app/services/access.py:63-163 | the report: administrators first, then every covering assignment of the organization's users, in order |
| `AccessMap.SortGrants` | backend/app/services/access.py:300-328 | the dictionaries of lists hold, for every id, exactly the user's grants there |
| `AccessMap.BuildDevices` | backend/app/services/access.py:352-363 | the device nodes of a site |
| `AccessMap.BuildSites` | backend/app/services/access.py:349-372 | the site nodes of a tenant, empty ones left out |
| `AccessMap.UserAccessMap` | backend/app/services/access.py:239-398 | empty for a user not of the organization; otherwise the whole map, over dictionaries that are right for the user, and the pairs of every role assigned to them |
| `AccessMap.CollectPermissions` | backend/app/services/access.py:383-392 | the nested loops collect exactly the pairs of the assigned roles, and the wildcard for administrators |
| `AccessMap.BuildTenants` | backend/app/services/access.py:346-381 | the tenant nodes, empty ones left out |
| `AccessDuality.ListedIsInherited` | backend/app/services/access.py:337-381 | anywhere in the map, a target is listed with exactly the grants of its levels, once each |
| `AccessDuality.CoversIsScopeMatch` | backend/app/services/access.py:166-188 | the report's covering test and the check's scope test are one relation |
| `AccessDuality.ReportsAreDual` | backend/app/services/access.py:63-381 | for every user and target, the reasons in the report and the grants in the map are the same multiset |
| `AccessDuality.NamedExactly` | backend/app/services/access.py:63-188 | the report names exactly administrators and holders of a covering assignment |
| `AccessDuality.ReportExactly` | backend/app/services/access.py:63-163 | an entry is in the report if and only if it is an administrator's of the organization or says what a covering assignment of one of its users says |
| `AccessDuality.TenantsNotEmpty` | backend/app/services/access.py:346-381 | the map has no empty node at any level |
| `AccessDuality.CheckIsInsideReport` | backend/app/services/access.py:63-188 | everyone the check admits is named; the converse when the user's assignments are unexpired and non-empty |
| `AccessDuality.PermissionsExactly` | backend/app/services/access.py:383-392 | the listed pairs cover an action if and only if the user is an administrator or some assigned role grants it |
| `AccessDuality.CheckIsInsidePermissions` | backend/app/services/access.py:383-392 | whatever the check allows a user anywhere at any time is covered by the pairs listed for them |
| `AccessRequests.AccessDesk.CreateRequest` | backend/app/services/access_request.py:61-103 | done if and only if the target is a tenant, site or device of the requester's organization; returns the request already pending, or exactly one new one; a refusal changes nothing; the invariant is kept |
| `AccessRequests.AccessDesk.MintRows` | backend/app/services/access_request.py:196-230 | one assignment and one grant row per named role the requester has no row for |
| `AccessRequests.AccessDesk.ApproveRequest` | backend/app/services/access_request.py:156-254 | done if and only if the actor is an administrator, the request is pending in their organization and every named role exists there; the decision is recorded on that request alone; a refusal changes nothing |
| `AccessRequests.AccessDesk.DenyRequest` | backend/app/services/access_request.py:257-295 | done if and only if the actor is an administrator and the request is pending in their organization; only that request changes; a refusal changes nothing; the invariant is kept |
| `AccessRequests.AccessDesk.CancelRequest` | backend/app/services/access_request.py:298-322 | the same, for its requester or an administrator |
| `AccessRequests.ApprovalIsExact` | backend/app/services/access_request.py:156-254 | approval removes no verdict and adds exactly those of newly granted named roles, to the requester, under the request's scope, until the expiry |
| `AccessRequests.ApprovalDelivers` | backend/app/services/access_request.py:195-215 | after approval a named role is held unexpired if and only if an existing row is, or there was none and the new expiry is ahead |
| `AccessRequests.ExpiredRowShadowsApproval` | backend/app/services/access_request.py:195-215 | an approval over an expired row grants nothing |
| `AccessRequests.OnlyApprovalMovesVerdicts` | backend/app/services/access_request.py:257-322 | creating, denying and cancelling change no verdict |
| `AccessRequests.StepKeeps` | backend/app/services/access_request.py:61-322 | every call keeps rows and pending requests unique and every grant backed by its approved request |
| `AccessRequests.RunKeeps` | backend/app/services/access_request.py:61-322 | over every run a request is decided at most once, none disappears, rows stay unique, and the assignments are the old ones plus one per new grant row |
| `AccessRequests.RunVouches` | backend/app/services/access_request.py:156-254 | over every run each new grant has its approved request and the call of an administrator of that organization who approved it with that role and is on record |
| `AccessRequests.EveryGainIsExplained` | backend/app/services/access_request.py:156-322 | over every run no verdict is lost, and a verdict is gained if and only if an approved request of that user, for a scope over that place, and an administrator's approval of it with that role explain it |
| `MigrationLocks.Watcher.Turn` | backend/app/core/migration_locks.py:33-66 | one poll: what is remembered after it, and who was ended |
| `MigrationLocks.Watcher.Watch` | backend/app/core/migration_locks.py:23-66 | in any run of polls a backend is ended only after an unbroken stretch of reports lasting the grace period, and a poll without error ends every such backend |
| `MigrationLocks.TurnIsExact` | backend/app/core/migration_locks.py:42-62 | a turn ends overdue backends only, and all of them if nothing fails |
| `MigrationLocks.RemembersNext` | backend/app/core/migration_locks.py:42 | the rebuilt dictionary is when each current blocker's unbroken stretch began |
| `RouterOsQuote.QuoteIsOnePass` | backend/app/services/device_onboarding.py:46-60 | the chained replacements equal one pass over the characters |
| `RouterOsQuote.QuoteThenRead` | backend/app/services/device_onboarding.py:46-60 | the quoted text has nothing unescaped in it and reads back as the value without control characters |
| `RouterOsQuote.DroppedExactly` | backend/app/services/device_onboarding.py:33 | exactly the characters below a space and the delete character are dropped |
| `RouterOsQuote.PlainValueSurvives` | backend/app/services/device_onboarding.py:46-60 | a value without them reads back as it is |
| `RouterOsQuote.QuoteIsInjective` | backend/app/services/device_onboarding.py:46-60 | two values quote alike if and only if they differ in control characters only |

## Left out

- SSH, HTTP, mail and database I/O: each call is a step that may fail; transactions and races inside one service call are not modelled.
- Cryptography: tokens are ids and a TOTP code is a relation between texts and steps.
- `ipaddress`: membership and validity are parameters, and address texts are taken to be single words.
- The guard's clock: the timer may fire and the sweep may run at any time, so nothing is said about how long a window lasts.
- Guard look-ups by organization (`GuardNotFound`), `list_pending` and the messages and details of outcomes other than which kind of rollback was recorded.
- UfwRoundTrip.PrintThenRead: restricted to interfaces not called comment; `InterfaceReadExactly` says what happens to those.
- UfwRoundTrip.CoverageAgrees: restricted in the same way, and to specs without a destination address, which the coverage check ignores.
- MigrationLocks.Watcher.Watch: the endless loop is any finite run of polls, and termination of a backend is its request.
- Parsing of `ufw status` columns, enabling and disabling the firewall, and the rest of the Linux and MikroTik drivers: they would only add easy members.
- The order in which the user map sorts names and permissions.
- Access requests: listing, the directory, labels and notifications. Two pending requests for one target, which would make the duplicate query raise, are proved not to arise.
- The updater, package and firmware runs, events, login codes, audit, reports and the frontend.
