# Verified core of the device controller and worker

A controller leases Android devices to users, and workers drive those devices
over USB through the Android Open Accessory (AOA) HID channel. The code that has
to be right is small: leases with fencing tokens, a configuration store that
survives a crash at any point, a cache with concurrent loads, the geometry that
decides where a tap lands, the loop that sends the taps, the condition evaluator
that guards them, a signed audit log, an ordered event uploader, an include
flattener, and the state files of an ADB proxy. This project models those parts in
Dafny and proves what they promise. `dafny verify dfyconfig.toml` checks it.

Every part follows one plan. The meaning of an operation is a function or a
predicate over values, and the theorems are about those: over every input, every
run or every interleaving. Where the source updates objects, rows, files or local
variables step by step there is a class or a method with loops whose contract ties
the new state to that function. What the outside world decides (a crash, an
exception, a vanished device, an observation, the time) is chosen arbitrarily
inside the methods, so each contract holds for every such choice.

## What is proved, part by part

- **Configuration store** (`Json`, `ConfigPartition`, `ConfigStore`). Splitting an
  object into four files and overlaying them again gives it back; no file but the
  credentials file holds a secret-named key at any depth. Each file operation is
  one step that may be cut short before or after it takes effect. Recovery never
  changes what a reader will see, wherever it stops, and a write leaves either all
  old files or all new ones, the new ones exactly if its journal was removed. A
  tolerant read leaves out the unreadable files and no others.
- **Device claims** (`DeviceClaims`, `DeviceClaimTokens`, `DeviceClaimRows`,
  `DeviceClaimRegistry`). Over
  all runs and all clocks: one active claim per device, which carries the largest
  generation; rows are never removed and their identity never changes; a claim that
  was closed never becomes active again; refused calls change nothing. For every call
  it is stated exactly which of the tokens in circulation are current afterwards, and
  row by row what became of every claim.
- **Cache** (`CacheItems`, `CacheLoads`, `CacheFreshness`, `TtlCache`). The cache is a
  recency-ordered list of bounded length; a hit is the last write; an entry that
  nobody touches stays until enough other keys were used, and a young value is hit.
  Under every interleaving
  of loads, invalidations and clears a load may store exactly if nothing newer
  happened to its key, the bookkeeping is exact, and no hit returns the value of a load
  that began before the key was last invalidated or the cache last cleared.
- **Include flattener** (`ShellIncludes`, `ShellTemplateLoader`). The memoised
  expansion equals the plain recursive one on every finite file graph, its text is
  the include tree read from left to right, and the cyclic-include error is raised
  exactly on graphs with a reachable cycle.
- **Touch geometry** (`HidRange`, `Rounding`, `AoaDisplay`, `SemanticPlan`, `LinearSystem`,
  `PivotBounds`, `CalibrationSpread`, `AffineFit`, `TouchMapping`). The four-rotation
  transform and its inverse, the safety of every compiled tap in the pixels of the
  display, Gauss-Jordan elimination, least-squares fitting, the probe layouts for
  which a fit must succeed, and reprojection between devices, all over exact reals.
- **Replay** (`HidReports`, `AoaReplay`). With devices that vanish or re-enumerate
  at any transfer, the reports sent are a prefix of the program, no report is sent
  twice, no command spans two USB sessions, nothing is held at a boundary, and every
  command goes to a device that answered after the command before it was sent.
- **Conditions and plans** (`Observation`, `SemanticRun`). A verdict of the
  three-valued evaluator is given exactly when every resolution of the unavailable
  atoms agrees on it. Every input of a run was preceded by an observation that
  really held, and by the completion or skip of every earlier step; a step is
  skipped exactly if its skip condition held, and fails without an outside fault
  only when its time is up.
- **Audit log** (`AuditLog`, `TailLines`). Every run leaves a chain that
  verification accepts, its head determines every record in it unless the MAC
  collides, rotation keeps exactly the shortest sufficient tail, and the backward
  block scan equals splitting the whole file.
- **Event uploader** (`EventUploader`). For every interleaving of one producer, the
  uploader and the stop signal: nothing is lost unaccounted, order is kept, and no
  event reaches the controller for the first time after a later one.
- **ADB proxy state** (`HubConfig`, `AdbProxyState`). The hub file is read back as it
  was written, and both state files keep naming the same sources; connecting or
  disconnecting one worker leaves the address and code of every other one alone.

## Where the code and its promises part

- A token whose claim moved to another source should never cancel anything again.
  It can: in the run that acquires a device under A, transfers it to B and back to A,
  the old token is current, void, and current again
  (`DeviceClaims.MovedTokenCanCancelAgain`). Exactly when it can is
  `DeviceClaims.MovedTokenRevivesExactly`: over every run, if and only if some call is
  an accepted transfer back to the token's source while the row, after the expiry
  sweep, still presents everything but that source (`Revives`, a guard that can be
  checked before the call). A token whose claim left `active` is dead for good.
- `RuntimeConfigStore.write` can raise although it committed: the directory sync
  after the journal's removal may fail. The contract of `ConfigStore`'s `Write` says
  which payload is visible in every case, and that a committed write raises only by
  one single fault, that last one.
- Backend names keep 100 characters of a worker id, but ids may have 128. Two longer
  ids can share a name (`AdbProxyState.LongNamesCollide`), and disconnecting one of
  them then breaks the agreement of the two files; it is kept if and only if no other
  imported worker shares the name (`AdbProxyState.TakenOutAgrees`).
- The uploader turns an empty collection into a pending batch: after an idle poll it
  calls the controller with an empty batch and retries that call in place like any
  other. A batch, the empty one included, is uploaded exactly after it was collected
  (`EventUploader.UploadsAreCollections`). The thread ends with events still queued only
  if its last deed was the extra upload after a failure and the stop
  (`EventUploader.CommandEventUploader.Run`); they count as queued, never as
  acknowledged.

## Model

| member | source | states |
|---|---|---|
| ConfigPartition.ContainsSecretMeaning | foundation/runtime_config_store.py:67-72 | the recursive test finds a private key exactly if one occurs at some depth, through objects and lists |
| ConfigPartition.SecretFieldMeaning | foundation/runtime_config_store.py:37-45 | a key is secret exactly if its bare lower-case name is one of the seven secret names or ends like one, and does not end like a file, path or variable |
| ConfigPartition.FieldsGoToTheirFile | foundation/runtime_config_store.py:22-91 | a private field goes to the credentials alone, any other to the one file that its name belongs to |
| ConfigPartition.ExtractSecrets | foundation/runtime_config_store.py:48-64 | the loop over the fields, in any order, splits an object into its public and its private half |
| ConfigPartition.OverlaySections | foundation/runtime_config_store.py:75-82 | the merge loop, in any order, lays one object over another recursively |
| ConfigPartition.PartitionRuntime | foundation/runtime_config_store.py:85-91 | the loop puts every public field into the section that owns it, and the secrets into the credentials |
| ConfigPartition.OverlayRestores | foundation/runtime_config_store.py:48-82 | the private half laid over the public half is the original object at every depth |
| ConfigPartition.RoundTrip | foundation/runtime_config_store.py:85-91 | overlaying the four parts of any object in read order gives the object back |
| ConfigPartition.PublicPartHasNoSecret | foundation/runtime_config_store.py:48-72 | the public half contains no secret at any depth |
| ConfigPartition.OrdinaryFilesHoldNoSecret | foundation/runtime_config_store.py:85-91 | no private key occurs at any depth of the three files that are not the credentials |
| ConfigPartition.CredentialsOnlyWhenNeeded | foundation/runtime_config_store.py:48-72 | the private half is empty exactly if the object contains no secret |
| ConfigStore.RestoreUndoesRecord | foundation/runtime_config_store.py:125-138 | restoring the journal record of any set of files, present or missing, gives exactly those files |
| ConfigStore.CombineCommitted | foundation/runtime_config_store.py:148-160 | reading the files of a payload gives that payload |
| ConfigStore.RuntimeConfigStore.Recover | foundation/runtime_config_store.py:125-146 | recovery changes nothing a reader will see, wherever it is cut short; when it returns the journal is gone and the recorded files are back; a damaged journal is refused untouched |
| ConfigStore.RuntimeConfigStore.Read | foundation/runtime_config_store.py:148-160 | a reader sees the recovered files; a tolerant read skips and names exactly the files that could not be read, one for each fault |
| ConfigStore.RuntimeConfigStore.ReadFile | foundation/runtime_config_store.py:151-157 | one file gives its object, or is recorded as unreadable |
| ConfigStore.RuntimeConfigStore.ReplaceAll | foundation/runtime_config_store.py:162-173 | the four replacements leave exactly the files of the payload if none fails |
| ConfigStore.RuntimeConfigStore.Write | foundation/runtime_config_store.py:162-173 | visible afterwards are all old files or all new ones, the new ones exactly if this write removed its journal; a return means committed |
| ConfigStore.ReaderSeesLastCommitted | foundation/runtime_config_store.py:108-173 | after any reads and writes, each cut short anywhere, a reader gets the payload of the last committed write |
| ConfigStore.ReaderSeesStart | foundation/runtime_config_store.py:108-173 | without a committed write the visible files never change |
| DeviceClaims.Normalized | foundation/device_claims.py:88-110 | the normalised request has distinct device keys, no blank part and positive generation floors |
| DeviceClaims.ActiveRow | foundation/device_claims.py:146-149 | finds an active row of a device exactly if there is one |
| DeviceClaims.MaxGenerationBounds | foundation/device_claims.py:179-188 | the generation that a new claim must exceed bounds those of all rows of the device |
| DeviceClaims.CallKeeps | foundation/device_claims.py:112-442 | every call keeps ids, order of generations and uniqueness of active claims; rows stay, identities stay, and a status that left active stays |
| DeviceClaims.RunKeeps | foundation/device_claims.py:112-442 | the same over every sequence of calls with arbitrary clocks |
| DeviceClaims.ActiveIsUniqueAndNewest | foundation/device_claims.py:120-233 | an active claim is the only one of its device and has the largest generation |
| DeviceClaims.CurrentMeansRow | foundation/device_claims.py:397-422 | a token is current exactly if the row it names presents it and has not expired |
| DeviceClaims.ClosedTokenStaysDead | foundation/device_claims.py:397-422 | a token whose row left active is never current again in any run |
| DeviceClaims.SourceChangesByTransfer | foundation/device_claims.py:322-366 | only an accepted transfer that moves the row gives it another source |
| DeviceClaims.SourceReturnsByTransfer | foundation/device_claims.py:322-366 | a row comes to a source it did not have only by an accepted transfer of that row to that source |
| DeviceClaims.MovedTokenNeedsTransferBack | foundation/device_claims.py:322-422 | a token whose row changed source is current later only if some call of the run revived it: an accepted transfer of its row back to its source |
| DeviceClaims.TransferBackRevives | foundation/device_claims.py:322-366 | a reviving call makes the token current exactly until its new expiry |
| DeviceClaims.MovedTokenRevivesExactly | foundation/device_claims.py:322-422 | over every run, a token whose row changed source is current again at some point if and only if some call revives it |
| DeviceClaims.MovedTokenCanCancelAgain | foundation/device_claims.py:322-422 | a concrete run from the empty registry in which a token is current, void after a transfer, and current again after the transfer back |
| DeviceClaimTokens.LookedAt | foundation/device_claims.py:235-292 | a listing only ends expired tokens |
| DeviceClaimTokens.Renewal | foundation/device_claims.py:294-320 | a renewal gives the new expiry to exactly the current tokens of its source and keys |
| DeviceClaimTokens.TransferRenames | foundation/device_claims.py:322-366 | an accepted transfer makes exactly the current tokens of the old source current under the new one, and voids their old names |
| DeviceClaimTokens.ReleaseEnds | foundation/device_claims.py:368-395 | a release ends exactly the tokens of its source and keys |
| DeviceClaimTokens.RevocationEnds | foundation/device_claims.py:397-422 | a current token cancels exactly the tokens of its source, owner and worker |
| DeviceClaimTokens.ForceEnds | foundation/device_claims.py:424-442 | a forced release ends exactly the tokens of its device |
| DeviceClaimTokens.AcquireSparesOthers | foundation/device_claims.py:162-231 | an accepted acquire leaves the tokens of all other devices alone |
| DeviceClaimTokens.OneTokenPerDevice | foundation/device_claims.py:120-442 | after any run a device has at most one current token, which carries its largest generation |
| DeviceClaimRows.ExpiryIsFar | foundation/device_claims.py:17-20 | an expiry is the time asked for ahead of the clock, and at least 30 seconds |
| DeviceClaimRows.LookRow | foundation/device_claims.py:112-118 | the sweep turns exactly the active rows whose expiry is not after the clock into expired ones |
| DeviceClaimRows.RenewRow | foundation/device_claims.py:294-320 | a renewal sets heartbeat and expiry of exactly the live rows of its source and keys |
| DeviceClaimRows.ReleaseRow | foundation/device_claims.py:368-395 | a release gives its status and the release time to exactly the live rows of its source and keys |
| DeviceClaimRows.ForceRow | foundation/device_claims.py:424-442 | a forced release closes exactly the live row of its device |
| DeviceClaimRows.RevokeRow | foundation/device_claims.py:397-422 | a current token cancels exactly the live rows of its source, owner and worker; any other changes no row |
| DeviceClaimRows.TransferAccepted | foundation/device_claims.py:337-351 | a transfer is accepted exactly if the source has live rows, all of the owner it names, and their keys are the ones it names |
| DeviceClaimRows.TransferRow | foundation/device_claims.py:352-366 | an accepted transfer gives the new source, kind, heartbeat and expiry to exactly the live rows of the old source |
| DeviceClaimRows.NormalizedExactly | foundation/device_claims.py:88-110 | the normalised request holds exactly the first complete entry of each key, stripped, with a floor of at least 1 |
| DeviceClaimRows.KeysOfNormalized | foundation/device_claims.py:88-110 | a key is requested exactly if some complete entry has it |
| DeviceClaimRows.AcquireRefused | foundation/device_claims.py:143-160 | a request is refused exactly if it has no complete entry or some live claim on a requested device may not be reused |
| DeviceClaimRows.MaxGenerationAttained | foundation/device_claims.py:179-188 | the largest generation of a device is that of one of its rows, or 0 |
| DeviceClaimRows.AcquiredRow | foundation/device_claims.py:162-231 | after an accepted acquire the active row of every requested device is the live one with a new expiry, or a new row whose generation is at least the floor, above every earlier one of the device, and no larger than that takes |
| DeviceClaimRegistry.NormalizeDevices | foundation/device_claims.py:88-110 | the loop strips, rejects blank entries, keeps the first entry of a key and fails exactly if nothing is left |
| DeviceClaimRegistry.NoConflictMeans | foundation/device_claims.py:143-160 | an empty conflict list means that no active row of a requested device blocks the request |
| DeviceClaimRegistry.GrantedIsCurrent | foundation/device_claims.py:162-231 | every granted record yields a token that is current exactly until its expiry |
| DeviceClaimRegistry.Registry.Acquire | foundation/device_claims.py:120-233 | grants all requested devices or none; it refuses exactly if some live claim stands in the way, and then leaves the table as it was and returns exactly the conflicting rows; a grant returns exactly the active rows of all requested keys, each the extended one or a new one that carries the request's fields and fences off all earlier generations |
| DeviceClaimRegistry.Registry.FindConflicts | foundation/device_claims.py:143-157 | the loop collects exactly the blocking rows and the reusable ones |
| DeviceClaimRegistry.Registry.TakeOne | foundation/device_claims.py:164-229 | one device's claim is extended in place or inserted with the next generation, the floor included |
| DeviceClaimRegistry.Registry.TakeAll | foundation/device_claims.py:162-229 | the record loop grants every requested device |
| DeviceClaimRegistry.Registry.List | foundation/device_claims.py:235-292 | the listings sweep expired claims and return exactly the matching active ones |
| DeviceClaimRegistry.Registry.RenewClaims | foundation/device_claims.py:294-320 | renews and counts exactly the active claims of the source |
| DeviceClaimRegistry.Registry.TransferClaims | foundation/device_claims.py:322-366 | moves all claims of a source or none; a refused transfer leaves the table as it was |
| DeviceClaimRegistry.Registry.ReleaseClaims | foundation/device_claims.py:368-395 | closes and counts exactly the active claims of the source; refuses the status active |
| DeviceClaimRegistry.Registry.ReleaseOperationIfCurrent | foundation/device_claims.py:397-422 | cancels exactly if the token is current; otherwise nothing changes, not even by the expiry sweep |
| DeviceClaimRegistry.Registry.ForceRelease | foundation/device_claims.py:424-442 | afterwards the device has no active claim; returns the one it had |
| CacheItems.AfterBounded | foundation/cache.py:73-98 | every operation keeps keys distinct and the size within the limit |
| CacheItems.RunBounded | foundation/cache.py:73-98 | the same over every sequence of operations |
| CacheItems.EntryIsLastWrite | foundation/cache.py:73-98 | every entry is the last write to its key that was not removed since |
| CacheItems.HitIsLastWrite | foundation/cache.py:73-83 | a hit returns the last value written for the key, younger than the time to live |
| CacheItems.EvictionNeedsOtherKeys | foundation/cache.py:85-98 | an unexpired entry that is not removed or overwritten stays until at least as many other keys as the limit were set or hit |
| CacheItems.YoungValueIsHit | foundation/cache.py:73-98 | after a write a read of the key returns the value as long as it is younger than the time to live, nothing removed or replaced it, and fewer other keys than the limit were used |
| CacheItems.TouchedIsMostRecent | foundation/cache.py:73-98 | a hit or a write makes its key the most recent entry |
| CacheLoads.StepKeeps | foundation/cache.py:49-71 | every begin, end, invalidate and clear keeps the bookkeeping invariant |
| CacheLoads.TraceInv | foundation/cache.py:49-163 | the invariant holds in every interleaving |
| CacheLoads.StoresExactlyNewest | foundation/cache.py:64-71 | a live load may store exactly if no later load of its key, no invalidation of it and no clear happened since it began |
| CacheLoads.BookkeepingIsExact | foundation/cache.py:49-62 | a version's user count is its number of live loads, and with no live load both tables are empty |
| CacheLoads.EndSparesOthers | foundation/cache.py:57-62 | ending a load never removes the bookkeeping of another version or of a shared one |
| CacheFreshness.ItemsStayFresh | foundation/cache.py:73-98 | reads and writes keep every loaded value stamped with a load that was not disturbed since it began |
| CacheFreshness.NextKeeps | foundation/cache.py:49-163 | every locked operation keeps entries and loads consistent with each other |
| CacheFreshness.TraceKeeps | foundation/cache.py:49-163 | the same in every interleaving |
| CacheFreshness.HitsAreFresh | foundation/cache.py:49-163 | no hit returns a value whose load began before the latest invalidation of its key or the latest clear |
| TtlCache.Cache.Get | foundation/cache.py:73-83 | returns the unexpired value and moves it to the end, drops an expired one |
| TtlCache.Cache.Set | foundation/cache.py:85-98 | drops expired entries, writes at the end and evicts from the front, as the list model says |
| TtlCache.Cache.EvictOldest | foundation/cache.py:96-98 | the eviction loop removes oldest entries until the limit holds |
| TtlCache.Cache.DropExpired | foundation/cache.py:88-91 | the two-pass sweep removes exactly the expired entries |
| TtlCache.Cache.BeginLoad | foundation/cache.py:49-55 | registers a load with the newest sequence number of its key |
| TtlCache.Cache.StoreLoaded | foundation/cache.py:64-71 | stores exactly if the load was not superseded |
| TtlCache.Cache.EndLoad | foundation/cache.py:57-62 | unregisters one load and its version if it was the last user |
| TtlCache.Cache.Invalidate | foundation/cache.py:149-155 | removes the entry and detaches the loads of the key |
| TtlCache.Cache.Clear | foundation/cache.py:157-163 | removes everything and detaches all loads |
| ShellIncludes.StackIrrelevant | bootstrap/shell_templates.py:34-60 | the text of a fragment does not depend on the include stack as long as it avoids it |
| ShellIncludes.FailureIsJustified | bootstrap/shell_templates.py:34-60 | every error of the expansion is caused by a reachable file that really is cyclic, missing or not a fragment |
| ShellIncludes.FlattensExactlyWhenFlattenable | bootstrap/shell_templates.py:34-60 | expansion succeeds exactly if every reachable file is a fragment and none lies on a cycle |
| ShellIncludes.CyclicErrorExactlyOnCycle | bootstrap/shell_templates.py:34-41 | among reachable fragments the cyclic-include error is raised exactly if a cycle is reachable |
| ShellIncludes.PlainIsTree | bootstrap/shell_templates.py:44-60 | the text of a successful expansion is that of its include tree, piece after piece from left to right, each included file without its final newline |
| ShellIncludes.TreeIsUnique | bootstrap/shell_templates.py:44-60 | a file has at most one include tree, so this determines the text |
| ShellTemplateLoader.FinishedAvoidsStack | bootstrap/shell_templates.py:34-60 | a fragment that was finished under one stack has the same text under another, so its memo entry may be reused |
| ShellTemplateLoader.Loader.Expand | bootstrap/shell_templates.py:34-60 | the memoised expansion returns what plain recursion returns, terminates, and memoises exactly the reached files |
| ShellTemplateLoader.Loader.ExpandParts | bootstrap/shell_templates.py:44-57 | the loop over the parts concatenates texts and expanded includes in order |
| ShellTemplateLoader.Loader.GetSource | bootstrap/shell_templates.py:27-72 | the entry is flattened exactly if it is flattenable, to the text of its include tree, and its freshness checks then name every reached file once; only a reached file that cannot be flattened falls back, a missing one and a cycle are raised |
| Rounding.Round | foundation/aoa_display.py:87-88 | rounding to the nearest integer, ties to even |
| Rounding.FitsMeaning | foundation/aoa_display.py:108-111 | the comparison of squares means error plus distance within the limit |
| AoaDisplay.ExactInverse | foundation/aoa_display.py:61-88 | before rounding, the inverse transform undoes the transform in all four rotations |
| AoaDisplay.PointSpelledOut | foundation/aoa_display.py:61-71 | for each rotation the pixel distance from its edge is the HID coordinate over 361 or 641 of the viewport side |
| AoaDisplay.PointAccepted | foundation/aoa_display.py:61-71 | a point exists exactly for a viewport on the display and one of the four rotations |
| AoaDisplay.InverseAccepted | foundation/aoa_display.py:74-88 | a pixel has an inverse exactly if it is in a viewport on the display and some HID position within a millionth of the range reaches it |
| AoaDisplay.InverseInRange | foundation/aoa_display.py:74-88 | an accepted inverse lies in the HID range |
| AoaDisplay.InverseOfPoint | foundation/aoa_display.py:61-88 | the inverse of the pixel of an integer HID coordinate on the touch screen is that coordinate |
| AoaDisplay.CookedWithinHalfStep | foundation/aoa_display.py:61-88 | the point of the rounded coordinate is within half a HID step of the wanted point on each axis |
| SemanticPlan.TurnKeepsInside | foundation/aoa_display.py:91-113 | turning a layout keeps a point inside its bounds exactly |
| SemanticPlan.LayoutFillsFrame | foundation/aoa_display.py:113 | the corners of the layout are the corners of the frame in pixels |
| SemanticPlan.CornersTurnClockwise | foundation/aoa_display.py:99-113 | each quarter turn takes the upper corners of the layout clockwise round the frame |
| SemanticPlan.PointIsOnDisplay | foundation/aoa_display.py:99-113 | for each layout rotation the pixel of a point is its column and row in the frame |
| SemanticPlan.BoxIsOnDisplay | foundation/aoa_display.py:99-113 | the box around a turned control has the columns and rows of its edges |
| SemanticPlan.MarginsAreGaps | foundation/aoa_display.py:101-107 | the margins are the pixel distances of the reference from the nearest edges of the control |
| SemanticPlan.ReferenceKeepsMargins | foundation/aoa_display.py:91-113 | the reference point keeps its margins inside the turned control in pixels |
| SemanticPlan.TwoHops | foundation/aoa_semantics.py:187-195 | a landing near the cooked point of an accepted target is within the limit of the reference point |
| SemanticPlan.CompiledPointIsSafe | foundation/aoa_semantics.py:187-204 | any landing within the certified error of a compiled coordinate is at least half the margin inside the pixel box of the control, given edge by edge for each rotation, and at most 8 pixels from its reference |
| SemanticPlan.CompilesExactly | foundation/aoa_semantics.py:187-195 | a control compiles to a coordinate exactly if the layout is well formed, the coordinate is the inverse of the reference pixel, and certified error plus rounding fit 8 pixels and half of each margin |
| SemanticPlan.CompiledCommandIsSafe | foundation/aoa_semantics.py:197-206 | both ends of a swipe and every tap of a compiled command are safe for the controls its step names |
| SemanticPlan.CompileName | foundation/aoa_semantics.py:187-195 | a control name compiles exactly if some coordinate aims at it |
| SemanticPlan.CompilePlan | foundation/aoa_semantics.py:185-208 | the plan has one command per step, each safe for the controls the step names; it fails only on a step that cannot be compiled |
| SemanticPlan.LivePointIsSafe | worker_agent/aoa_semantics.py:36-49 | any landing within the certified error of a live element stays at least a quarter of the element away from every edge and at most 8 pixels from its center |
| SemanticPlan.LiveExactly | worker_agent/aoa_semantics.py:36-49 | a live element gives a coordinate exactly if its center is inside the window, that is its inverse, and certified error plus rounding fit 8 pixels and a quarter of each side |
| LinearSystem.EliminationKeeps | foundation/aoa_calibration.py:119-124 | subtracting a multiple of another row keeps the solutions |
| LinearSystem.ExchangeKeeps | foundation/aoa_calibration.py:115-116 | exchanging rows keeps the solutions |
| LinearSystem.Largest | foundation/aoa_calibration.py:112-113 | the pivot is the first row with the largest absolute value |
| LinearSystem.ClearingSound | foundation/aoa_calibration.py:119-124 | clearing a column keeps the solutions and the columns cleared before |
| LinearSystem.DiagonalSolution | foundation/aoa_calibration.py:125 | a cleared system has exactly the solution that is read off its diagonal |
| LinearSystem.ChoosePivot | foundation/aoa_calibration.py:112-113 | the scan finds that pivot |
| LinearSystem.SubtractRow | foundation/aoa_calibration.py:119-124 | the inner loop over the columns subtracts the whole multiple in place |
| LinearSystem.ClearColumn | foundation/aoa_calibration.py:119-124 | the loop over the rows clears the column in place |
| LinearSystem.Solve3 | foundation/aoa_calibration.py:110-125 | unless a pivot is rejected, the result is the one and only solution |
| PivotBounds.SucceedsByDeterminant | foundation/aoa_calibration.py:110-125 | with coefficients up to some size, no pivot is rejected if the determinant is above 6e-9 times the squared size |
| PivotBounds.SingularFails | foundation/aoa_calibration.py:110-125 | a singular system is always rejected |
| CalibrationSpread.GramAtLeast | foundation/aoa_calibration.py:128-160 | the determinant of the normal equations is at least the square of twice the area of any triangle of probe points |
| CalibrationSpread.MomentsAreSmall | foundation/aoa_calibration.py:128-160 | the sums are at most the number of probe points times the square of their largest coordinate |
| CalibrationSpread.SpreadSucceeds | foundation/aoa_calibration.py:128-160 | the normal equations are solved whenever some triangle of probe points is large enough for their number and size |
| AffineFit.GradientIsNormal | foundation/aoa_calibration.py:128-160 | the accumulated normal equations are the gradient of the squared residuals |
| AffineFit.SquaresExpand | foundation/aoa_calibration.py:128-160 | the squared error around any map, exactly |
| AffineFit.NormalSolutionIsBest | foundation/aoa_calibration.py:128-160 | a unique solution of the normal equations has a strictly smaller squared error than every other map |
| AffineFit.Uniqueness | foundation/aoa_calibration.py:128-160 | it is the best map, and a map that fits all samples exactly is that map |
| AffineFit.UniqueIsNotCollinear | foundation/aoa_calibration.py:128-160 | collinear samples never have a unique best map |
| AffineFit.FivePointsAreWellSpread | foundation/aoa_calibration.py:92-107 | the five standard probe points of the touch screen spread far enough, whatever is measured there |
| AffineFit.FitAffine | foundation/aoa_calibration.py:128-160 | the fit minimises the squared residuals over all affine maps for any number of samples, recovers exact maps, rejects fewer than three or collinear samples, and succeeds for well spread ones |
| TouchMapping.RoundTrip | foundation/aoa_calibration.py:207-231 | the HID coordinate of the screen point of an in-range coordinate is that coordinate |
| TouchMapping.StrictPixelError | foundation/aoa_calibration.py:212-231 | an accepted coordinate hits within half a step of each axis, in pixels |
| TouchMapping.ConvertSame | foundation/aoa_calibration.py:421-433 | between equal maps a coordinate is unchanged exactly if it lies on the display |
| TouchMapping.ConvertsExactly | foundation/aoa_calibration.py:421-433 | a coordinate is converted exactly if sizes are known, rotations agree, it is on the display, and the proportional place on the target is reachable |
| TouchMapping.ConvertPointReprojects | foundation/aoa_calibration.py:421-433 | a converted point is in range and hits, within half a step of the target, the place that is to the target size as the old pixel was to the source size, for width and height |
| TouchMapping.ConvertFaithful | foundation/aoa_calibration.py:436-464 | an accepted command keeps its kind and its times, with every point reprojected |
| TouchMapping.ConvertCommands | foundation/aoa_calibration.py:436-464 | the list is accepted exactly if every command is; length and order stay, and equal maps change nothing |
| HidReports.TouchReportDecodes | foundation/aoa_profile.py:341-348 | a touch report decodes to its coordinates and its contact bit |
| HidReports.TouchCommandDecodes | worker_agent/aoa_actions.py:1425-1467 | the reports of a click, long click or swipe decode to contacts at the points of that command |
| HidReports.KeyTypesChar | foundation/aoa_profile.py:153-168 | a character has a modifier and usage exactly if the keyboard table, read by usage, gives that character |
| HidReports.WriteTypesText | foundation/aoa_profile.py:376-387 | text is typed character by character, each key down and then released |
| HidReports.SystemKeyBits | foundation/aoa_profile.py:47-50 | wake, home and back are the first three bits on the system channel |
| HidReports.KeysDistinguish | foundation/aoa_profile.py:153-168 | different characters have different key reports |
| HidReports.TextToKeys | foundation/aoa_profile.py:376-387 | the loop gives one report per character and fails exactly on a character without a key |
| HidReports.SwipePoints | foundation/aoa_profile.py:359-373 | the loop produces the swipe path |
| HidReports.BetweenBounds | foundation/aoa_profile.py:359-373 | interpolated coordinates lie between the ends and reach the last one |
| HidReports.SwipeShape | foundation/aoa_profile.py:359-373 | a swipe goes down at its start, stays down inside its box, and is released only at the end point |
| HidReports.SwipeIsLinear | foundation/aoa_profile.py:359-373 | after each 10 ms a swipe is at the proportional point, to half a step, and it takes at least 100 ms |
| HidReports.ReportsUseTheirChannel | worker_agent/aoa_actions.py:1425-1467 | every report of a command uses the channel that was registered for it |
| HidReports.RequiredChannels | foundation/aoa_profile.py:208-218 | the registered channels are exactly those of the commands |
| HidReports.CompletedCommandReleases | worker_agent/aoa_actions.py:1425-1467 | after all reports of a command nothing is held down |
| AoaReplay.NothingIsReplayed | worker_agent/aoa_actions.py:1391-1467 | what was attempted is a prefix of the program, report by report, so nothing is sent twice or out of order |
| AoaReplay.BoundaryIsReleased | worker_agent/aoa_actions.py:1391-1467 | at every completed command boundary touch and keyboard are released |
| AoaReplay.SessionsAdvance | worker_agent/aoa_actions.py:1411-1416 | the reports of a new command in the current session keep one session per command |
| AoaReplay.CheckedGrows | worker_agent/aoa_actions.py:1411-1424 | the reports of a command that follow an answer of the current handle keep every transfer preceded by an answer in its session since the command before |
| AoaReplay.Replay.Prepare | worker_agent/aoa_session.py:78-141 | where sessions are tracked, stable means the same device was found and its handle answered in this call; otherwise the old handle is disposed of and a new session answered, or the call failed; without an outside fault it fails only without a bound port or when the reconnection time is over; a rebuild costs settle time before the deadline, and the recursion ends |
| AoaReplay.Replay.Rebuild | worker_agent/aoa_session.py:114-141 | the old device is disposed of once and the new session is fresh |
| AoaReplay.Replay.RegisterAll | worker_agent/aoa_session.py:19-52 | registers required channels only |
| AoaReplay.Replay.SendHid | worker_agent/aoa_actions.py:1339-1363 | one transfer is attempted at most once, to the current session, and exactly if the time budget is left and the channel is registered |
| AoaReplay.Replay.SendCommand | worker_agent/aoa_actions.py:1425-1467 | one command sends a front part of its reports in order, all of them if nothing fails |
| AoaReplay.Replay.PrepareUntilStable | worker_agent/aoa_actions.py:1411-1424 | the loop ends with a session that was not rebuilt after the last gate |
| AoaReplay.Replay.Gate | worker_agent/aoa_actions.py:1391-1402 | the time spent paused is added to the deadline, so pauses cost none of the time budget |
| AoaReplay.Replay.Execute | worker_agent/aoa_actions.py:1391-1467 | one turn of the command loop: completed, or cut short inside this command |
| AoaReplay.Replay.Run | worker_agent/aoa_actions.py:1391-1478 | attempted are the reports of the executed commands and a front part of the next one, each command in one session, which, where sessions are tracked, had answered after the last transfer of the command before; success means all were executed |
| AoaReplay.Replay.Cleanup | worker_agent/aoa_actions.py:1487-1510 | releases every registered touch and keyboard in the open session and disposes of it; attempts and count stay |
| Observation.Evaluate | worker_agent/aoa_observation.py:177-218 | the evaluator, which tries every child and collects the unavailable ones, computes the three-valued verdict |
| Observation.VerdictHoldsForEveryResolution | worker_agent/aoa_observation.py:177-218 | a verdict is the truth value under every resolution of the unavailable atoms |
| Observation.UnavailableLeavesBothOpen | worker_agent/aoa_observation.py:177-218 | it raises only if one resolution is true and another false |
| Observation.VerdictExactlyWhenDecided | worker_agent/aoa_observation.py:177-218 | it gives a verdict exactly if all resolutions agree on it |
| Observation.TrueVerdictHoldsPage | foundation/aoa_semantics.py:59-70 | if a condition names its page and holds, some positive page element really held |
| Observation.HasPageExactly | foundation/aoa_semantics.py:59-70 | the static test accepts exactly the conditions that cannot hold without a positive page element |
| Observation.BlindVerdict | foundation/aoa_semantics.py:59-70 | with no page element seen, a condition holds exactly if the static test rejects it |
| Observation.Select | worker_agent/aoa_observation.py:220-225 | the one matching node, none, or an error exactly if two match |
| SemanticRun.InputsAreGuarded | worker_agent/aoa_semantics.py:133-154 | before every input an evaluation of its precondition really saw a positive page element, no other input was sent since, and the device was verified last |
| SemanticRun.InputsAreDistinct | worker_agent/aoa_semantics.py:118-167 | inputs follow the order of the steps, so no step sends twice |
| SemanticRun.InputsAreOrdered | worker_agent/aoa_semantics.py:118-167 | before every input each earlier step was completed, with its input sent and its postcondition observed after that, or skipped because its skip condition held |
| SemanticRun.Runner.WaitCondition | worker_agent/aoa_semantics.py:96-113 | returns as soon as the condition was seen to hold and only then, sends nothing, and without an outside fault gives up only when its time, pauses excluded, or the budget is over |
| SemanticRun.Runner.RunStep | worker_agent/aoa_semantics.py:119-165 | one step is skipped without an input exactly if its skip condition held, or completes with its input sent or its sleep slept, or fails with every input so far justified, by an outside fault or because its time is up |
| SemanticRun.Runner.Act | worker_agent/aoa_semantics.py:135-159 | a sleep sends nothing and takes its time; an input is sent at most once, after the device was verified, and is justified |
| SemanticRun.Runner.Run | worker_agent/aoa_semantics.py:117-170 | every input was sent for an input step, guarded by its page and in order; success means every step was completed or skipped, and on failure all counted steps were |
| AuditLog.ChainIsDetermined | foundation/security_audit.py:421-434 | a chain is determined by its key and its contents |
| AuditLog.TamperingIsNoticed | foundation/security_audit.py:460-491 | changed fields of one record break the chain at that record unless their MAC collides |
| AuditLog.PrefixIsDetermined | foundation/security_audit.py:460-491 | two chains with the same hash at two positions hold the same records up to there, or two of their records collide |
| AuditLog.HeadDeterminesChain | foundation/security_audit.py:460-491 | two chains under one key with the same head hold the same records, or two of their records differ and have the same digest |
| AuditLog.CutIsUnique | foundation/security_audit.py:407-418 | there is one shortest tail that reaches the keep size |
| AuditLog.AppendKeepsChain | foundation/security_audit.py:362-389 | an accepted event leaves a chain with the event last; the old contents lose at most a front part |
| AuditLog.RunKeepsChain | foundation/security_audit.py:362-457 | from an empty log, and as long as no other key authenticates a head it meets, every run leaves a chain under the key of the first event, other keys change nothing, and the log holds the newest events in order |
| AuditLog.VerifyChain | foundation/security_audit.py:460-491 | accepts exactly the logs in which every hash is the MAC of its own record and every line names the hash of the line before, and otherwise names the first broken line and its flaw |
| AuditLog.Logger.LastHash | foundation/security_audit.py:202-216 | the remembered head, or else the one on disk, or the genesis value |
| AuditLog.Logger.KeptRecords | foundation/security_audit.py:407-418 | the backward loop keeps exactly the records of the shortest sufficient tail |
| AuditLog.Logger.Rechain | foundation/security_audit.py:420-434 | the kept records form a fresh chain with unchanged contents |
| AuditLog.Logger.RotateIfNeeded | foundation/security_audit.py:391-458 | nothing changes up to the size limit; beyond it the log becomes that chain and the backup the old log |
| AuditLog.Logger.LogEvent | foundation/security_audit.py:362-389 | appends one signed record behind the head on disk, and refuses without any change exactly if the last line has no record or its hash is not the MAC of that record under the key |
| TailLines.SplitConcat | foundation/security_audit.py:238-256 | a text that ends with a line feed splits independently of what follows |
| TailLines.SplitCutsAtBreaks | foundation/security_audit.py:238-256 | splitting cuts a file at its LF, CR LF and single CR breaks and nowhere else |
| TailLines.LinesCoverBreaks | foundation/security_audit.py:238-256 | a text has at least as many lines as line feeds |
| TailLines.TailSuffices | foundation/security_audit.py:247-256 | a tail with more line feeds than wanted lines has the same last lines as the file |
| TailLines.TailLines | foundation/security_audit.py:238-256 | the backward block scan returns exactly the last lines of the whole file |
| TailLines.WrittenSplits | foundation/security_audit.py:373-380 | records written with one line feed each are read back as they were |
| TailLines.HeadIsLastRecord | foundation/security_audit.py:202-236 | the head an append looks at is the record written last |
| EventUploader.KeptStep | worker_agent/command_events.py:85-183 | every step takes one stretch out of what is kept, and exactly that stretch is counted as dropped |
| EventUploader.DeliveryKeepsOrder | worker_agent/command_events.py:131-170 | delivering a batch again from its front keeps the order of first arrivals |
| EventUploader.StepKeeps | worker_agent/command_events.py:85-183 | every atomic step of either thread keeps the invariant |
| EventUploader.RunKeeps | worker_agent/command_events.py:85-183 | the invariant holds under every interleaving of the producer, the uploader and the stop signal |
| EventUploader.KeptInOrder | worker_agent/command_events.py:131-183 | acknowledged, pending and queued events together are strictly increasing |
| EventUploader.Conservation | worker_agent/command_events.py:85-183 | submitted events are acknowledged, dropped, pending, queued or in hand, each once |
| EventUploader.FirstArrivalIsNewest | worker_agent/command_events.py:144-170 | when an event first reaches the controller no later one has |
| EventUploader.CommandEventUploader.SubmitEvent | worker_agent/command_events.py:85-103 | unless stopped the event is queued last, an older event is dropped only if this call found 20000 queued, at most one, and the second attempt never finds the queue full; after the stop the event is dropped |
| EventUploader.CommandEventUploader.CollectBatch | worker_agent/command_events.py:172-183 | takes at most a batch of events, from the oldest queued one on, and less than a batch only if the queue ran empty |
| EventUploader.CommandEventUploader.Attempt | worker_agent/command_events.py:144-170 | a batch is acknowledged as a whole, stays with a doubled and bounded pause, or after the stop is tried once more and counted as dropped; the counter of uploads in flight returns to zero |
| EventUploader.CommandEventUploader.Turn | worker_agent/command_events.py:134-170 | a pending batch, even an empty one, is uploaded again in place, whatever else is queued; after the stop no events stay pending, and the thread ends with a non-empty queue only after a failed upload and the extra one after the stop |
| EventUploader.CommandEventUploader.Run | worker_agent/command_events.py:131-170 | collections and uploads alternate in turn, acknowledgements and arrivals only grow, and the thread ends only after the stop with nothing pending, and with an empty queue unless its last deed was the extra upload after a failure |
| EventUploader.UploadsAreCollections | worker_agent/command_events.py:131-183 | a batch, the empty one included, is uploaded exactly after it was collected, with only failed uploads of it in between |
| HubConfig.EscapeRoundTrip | worker_agent/adb_proxy.py:1247-1248 | reading an escaped string literal gives the string back |
| HubConfig.JoinSplits | worker_agent/adb_proxy.py:1127-1144 | the joined lines split into the same lines |
| HubConfig.SortIsStable | worker_agent/adb_proxy.py:1135 | the file is in ascending order of names, equal names in their old order |
| HubConfig.SortKeepsElements | worker_agent/adb_proxy.py:1135 | sorting keeps every backend |
| HubConfig.ReadHubConfig | worker_agent/adb_proxy.py:1096-1124 | the line reader, including where it gives up on the whole file |
| HubConfig.WriteHubConfig | worker_agent/adb_proxy.py:1127-1144 | the printer writes the header and one block per backend |
| HubConfig.HubRoundTrip | worker_agent/adb_proxy.py:1096-1144 | reading what was written gives the backends back, sorted by name and enabled |
| AdbProxyState.SharedName | worker_agent/adb_proxy.py:1175-1176 | two workers share a backend name exactly if their ids agree in the first 100 characters |
| AdbProxyState.ShortNamesDiffer | worker_agent/adb_proxy.py:1175-1176 | ids of at most 100 characters have different backend names |
| AdbProxyState.LongNamesCollide | worker_agent/adb_proxy.py:1168-1176 | two valid longer ids with one backend name |
| AdbProxyState.WrittenNames | worker_agent/adb_proxy.py:1096-1144 | the names in the file are the names that were written |
| AdbProxyState.TakenOutAgrees | worker_agent/adb_proxy.py:590-608 | a disconnect keeps the two files in agreement exactly if no other import shares the backend name |
| AdbProxyState.TakenOutSparesOthers | worker_agent/adb_proxy.py:590-608 | a disconnect removes exactly the backends of its name; every other one keeps its address and pair code |
| AdbProxyState.ConnectSparesOthers | worker_agent/adb_proxy.py:466-489 | a connect writes its own address and pair code and leaves those of every other backend alone |
| AdbProxyState.PutInAgrees | worker_agent/adb_proxy.py:466-489 | a connect keeps the two files in agreement |
| AdbProxyState.PutInNeverBack | worker_agent/adb_proxy.py:456-465 | a connect never lowers the generation of an import that stays |
| AdbProxyState.MoveKeepsStep | worker_agent/adb_proxy.py:440-608 | every operation for a short id keeps the agreement and never lowers a generation |
| AdbProxyState.RunAgrees | worker_agent/adb_proxy.py:333-608 | from a host without state files both files always name the same sources, for ids of at most 100 characters |
| AdbProxyState.ProxyHost.SourceStart | worker_agent/adb_proxy.py:333-425 | refused while the host imports or for a stale generation; only success changes the source file |
| AdbProxyState.ProxyHost.SourceStop | worker_agent/adb_proxy.py:428-437 | refuses exactly a stale generation; otherwise the source is gone |
| AdbProxyState.ProxyHost.TargetConnect | worker_agent/adb_proxy.py:440-529 | every refusal, a stale generation included, comes before any change and while the host is a running source; otherwise import and backend are replaced, and taken out again if the hub does not come up |
| AdbProxyState.ProxyHost.TargetDisconnect | worker_agent/adb_proxy.py:568-625 | refuses exactly a stale generation of a valid id without any change; otherwise import and backend of the worker are gone and the others stay |

## Left out

- AuditLog.RunKeepsChain: if another key does authenticate a head it meets, which takes a MAC collision, the code appends under that key and the theorem says nothing about the rest of the run; the MAC itself (HMAC, RFC 2104) is an arbitrary function.
- AuditLog.VerifyChain: lines that are JSON but not objects, and a last line without a line feed, are not modelled; the logger writes neither.
- HubConfig.EscapeRoundTrip: the `\u` escapes of JSON strings are not read, since the printer never writes them.
- HubConfig.HubRoundTrip: only for fields that are present and free of control characters and line breaks, which the validated names, codes and addresses are; other fields do not survive the line-based format.
- AdbProxyState.ProxyHost.TargetConnect: the writes of the state files succeed; devices, name resolution and the hub process are outcomes, and the resolved socket address is a parameter.
- EventUploader.CommandEventUploader.SubmitEvent: one producer thread; updates of the drop counter are atomic with the step they count, and a batch arrives from its front.
- EventUploader.CommandEventUploader.Run: any number of turns of the endless loop; the guarantee of `flush` that everything was acknowledged is not stated, because the code does not give it.
- AoaReplay.Replay.Run: the continuous mode only; recording, debug sources, per-command mode, progress callbacks and the final wait for ADB are left out.
- SemanticRun.Runner.Run: success before the optional final wait for ADB; the inner transport is one attempt of one input, whose reports are the subject of the replay model.
- SemanticPlan.CompilePlan: layout selection, certificates and the rest of template validation; the error budget and the margins are modelled.
- Observation.Evaluate: the caching of atom results within one evaluation; equal atoms are independent occurrences.
- TtlCache.Cache.StoreLoaded: the load locks, the futures that the asynchronous loads share, and values that are None; an explicit `set` is not protected from an older load, as in the code.
- ShellTemplateLoader.Loader.GetSource: Jinja parsing (a file is a sequence of texts and includes), bundle rewriting and the freshness test itself.
- ConfigStore.RuntimeConfigStore.Write: the file lock, the identity of JSON serialisation, and data that a power loss takes after a rename returned.
- ConfigPartition.ExtractSecrets: sharing of nested objects between input and output; letters are lowered as in ASCII.
- DeviceClaimRegistry.Registry.Acquire: SQL and its transactions, which are atomic calls here; unique lease ids are row numbers; white space is that of ASCII.
- Rounding.Round: floating-point rounding; all geometry is over exact reals, and square roots are compared by squares.
- AffineFit.FitAffine: between collinear samples, which are always rejected, and well spread ones, which never are, the tolerance for a pivot decides.
- SemanticRun.Runner.WaitCondition: no bound on its duration, because a single observation may take any time; the loop itself ends.
- Redaction, request summaries and log queries of the audit logger: they do not touch the chain.
- The device lock manager, ADB suppression and the configuration migration: their guarantees do not hold at the granularity of single steps.
- HTTP, USB, ADB, uiautomator and subprocess calls: only their outcomes are modelled.
- Paths, ports, release scripts, the web interface and the Windows agent: plumbing.
