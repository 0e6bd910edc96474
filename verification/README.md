# Display management, modelled and verified

A model of the display side of the window manager, and proofs about it: the client library's display cache,
coordinate conversions, listener registrations and display-state callback, the EDID parser, and the server's display
table, display rotation and compression, cutout geometry, screen groups and configuration reader.

Each module first gives the behaviour as functions on values: a state and one step per locked section, event handler
or call. Where the source keeps the state in the fields of an object, a class with these fields follows; its methods
are written like the source's and proved equal to the steps, so that the lemmas about steps and runs hold for them.
The loops of the source are loops here.

| module | subject |
|---|---|
| `DmTypes` | 32-bit integers, ids, rotations, modes |
| `DisplayCache` | `GetDisplayById` with its thread-local maps, under all interleavings of threads and notifications |
| `CacheHits` | which requests the cache serves, told from the events of a run |
| `Coordinates` | global and display-relative coordinates with the int32 guards |
| `AbilityDisplays` | the list of (ability, display) pairs and the query for one display |
| `AvailableArea`, `ScreenAgent` | listener sets and the remote agents they share |
| `DisplayStateProtocol` | the one-shot display-state callback, client and server |
| `EdidCea`, `EdidParser` | the EDID parser: CEA-861 walk, text descriptors, depth, vendor data |
| `Displays` | one display: rotation, mode change, waterfall compression |
| `DisplayTable` | the server's displays under connect and disconnect |
| `CutoutGeometry` | cutout rectangles and waterfall strips under rotation |
| `ScreenGroups` | joining and leaving groups, and the client's removal of repeated screens |
| `ConfigTokens` | `Split`, `IsNumber` and the number lists |

## Where the code does not do the obvious

These are modelled as the code has them; for each there is the exact condition under which the obvious claim holds.

- A cached display can be stale after a destruction: a global tag of zero is erased and created again
  (`HitIsStaleExactlyAfterADestroy`, with a run in `DestroyCanLeaveAStaleHit`).
- A failed unregistration of the display-state agent lets a later callback get the wrong state
  (`IdleIsSafeExactlyWithoutLeftovers`, `LossIsReachable`).
- Record listeners do not keep the screen agent (`RecordListenersLoseTheAgent`).
- The test for the display under a point wraps if the display's far edge does not fit in 32 bits
  (`TargetTestIsContainment`), so that a display can claim another one's points although the two are disjoint
  (`DisjointIsNotEnough`, `SearchUndoesToGlobalExactly`, `ToGlobalUndoesSearchExactly`).
- The cutout filter compares wrapped sums (`KeepsExactly`), and in panels with a side of 2^31 or more rotated
  rectangles and strips can get negative corners (`RotateRectIsTheRotation`, `StripsLieInside`).
- A new mode is written without the rotation (`NewModeIsWrittenUnrotated`), and so is the default screen's mode on an
  alone or mirror disconnect (`NormalDisconnectRebinds`).
- Compression forgets a start offset other than (0, 0) (`PathIndependentExactlyFromOrigin`), and a size event with the
  screen's own mode overwrites a compressed display (`ResizeKeepsSettled`, `MixedRuns`).
- A disconnect or an alone connect can put two displays on a screen (`StepIsInjectiveExactlyWithoutCollision`).
- The rectangles rotated by 90 and 180 degrees are lost (`TransferLosesQuarterAndHalfTurns`), and the top waterfall
  strip at 180 degrees has its sides exchanged (`StripsAgreeWithRotation`, `StripsLieInside`).
- Adding a grouped screen, or removing a screen from a group it is not in, breaks the group relation
  (`StepKeepsPartitionExactly`).
- Repeating the recorded default screen in a request can move it (`DeduplicationIsTransparent`,
  `RepetitionMovesDefaultScreen`) and can replace the group's mirror screen (`DeduplicationKeepsMirror`,
  `RepetitionMovesMirror`).
- An empty token counts as a number and then throws (`ReadTokensOutcome`, `TrailingSpaceThrows`), and `Split` with a
  pattern that ends as it begins can lose the end of the text (`JoinUndoesSplitExactly`, `SplitCanLoseTheEnd`).

## Model

| member | source | states |
|---|---|---|
| DisplayCache.HitIsStaleExactlyAfterADestroy | dm/src/display_manager.cpp:788-846 | after any interleaving of any threads' requests with notifications, a display returned from the cache was committed by that thread for a fetch it issued, and it is stale if and only if its tag is zero and the display was destroyed since that fetch was issued |
| DisplayCache.HitIsCurrentWithoutDestroy | dm/src/display_manager.cpp:788-828 | without a destruction of the display every cache hit was fetched by a request issued after the last create or change notification |
| DisplayCache.StepKeepsInv | dm/src/display_manager.cpp:2464-2515 | every atomic step of requests and notifications keeps the tag invariant: an equal non-zero tag was read after the last notification, and only a destruction leaves no tag or a zero tag behind a notification |
| DisplayCache.CachedDisplaysWereFetched | dm/src/display_manager.cpp:810-828 | each cached display goes back to a check step of its own thread and a later commit with that content |
| DisplayCache.DestroyCanLeaveAStaleHit | dm/src/display_manager.cpp:2476-2483 | a run with a destruction ends in a hit on a display that was notified after its fetch |
| DisplayCache.DisplayManagerImpl.CheckCache | dm/src/display_manager.cpp:794-809 | the first locked section: hit or miss, the target tag, and the tags it creates |
| DisplayCache.DisplayManagerImpl.CheckNeedUpdateDisplayByTag | dm/src/display_manager.cpp:831-846 | an update is needed unless both tags exist and agree; a missing global tag is created |
| DisplayCache.DisplayManagerImpl.CommitDisplay | dm/src/display_manager.cpp:810-828 | a null answer changes no map; otherwise the display and its tag are stored together |
| DisplayCache.DisplayManagerImpl.NotifyDisplayDestroy | dm/src/display_manager.cpp:2476-2483 | the global tag goes for all threads, the display and its private tag only for the notifying thread |
| CacheHits.CacheServesExactly | dm/src/display_manager.cpp:794-828 | over every run: while a fetched display is neither stored again nor destroyed, a later request's check is a hit on that answer if and only if it does not ask for the actual information, the entry is not too old, the fetch did not ask for it either and found the display known to the thread, and no notification came since the fetch's check |
| CacheHits.ThirdRequestIsServed | dm/src/display_manager.cpp:799-807 | such a run: two fetches are enough, the third of three equal requests is served what the second fetched |
| CacheHits.ActualRequestAsksServer | dm/src/display_manager.cpp:798-811 | in every run a request for the actual information is never served from the cache, and its check asks the server |
| CacheHits.ForgottenDisplayIsFetched | dm/src/display_manager.cpp:2476-2483 | in every run, after a destruction that the thread itself ran, only a new answer lets the cache serve the display to it |
| Coordinates.OverflowGuardsAreExact | dm/src/display_manager.cpp:54-68 | the guards report exactly the sums and differences that are no int32 |
| Coordinates.ConversionsAreInverse | dm/src/display_manager.cpp:3061-3090 | whatever relative-to-global accepts is returned by the conversion with the display id, and on a main or extended display the two conversions are inverse both ways |
| Coordinates.ConversionsAcceptExactly | dm/src/display_manager.cpp:3061-3172 | both conversions accept main and extended displays only, and exactly when the result is an int32; the error or default answer of every other case |
| Coordinates.TargetTestIsContainment | dm/src/display_manager.cpp:43-52 | the wrapped 32-bit test tells containment for all points if and only if the display is empty or its far edges fit in 32 bits |
| Coordinates.ConvertGlobalCoordinateToRelative | dm/src/display_manager.cpp:3100-3133 | the loop returns the first main or extended display of the list that the point is on, or display 0 with the global point |
| Coordinates.SearchSkipsOthers | dm/src/display_manager.cpp:3104-3117 | a listed display that is missing or neither main nor extended makes no difference to the search |
| Coordinates.SearchUndoesToGlobalExactly | dm/src/display_manager.cpp:3061-3133 | the search undoes relative-to-global at every in-bounds point, for every list of the displays, if and only if no display claims a point of another one |
| Coordinates.ForeignClaimByRectangles | dm/src/display_manager.cpp:43-52 | whether a display claims a foreign point, told from the rectangles: two of them meet, or meet when one is moved by 2^32 |
| Coordinates.ToGlobalUndoesSearchExactly | dm/src/display_manager.cpp:3061-3133 | every point on the displays is converted back from what the search finds, for every list, if and only if a display claims a point of another one only where it has the point, too |
| Coordinates.DisjointIsNotEnough | dm/src/display_manager.cpp:3100-3133 | two disjoint displays of which the one beyond the largest coordinate claims a point of the one at the smallest |
| Coordinates.SearchUndoesToGlobal | dm/src/display_manager.cpp:3100-3133 | the case of disjoint displays whose far edges fit in 32 bits: every in-bounds point is accepted and found again, for every order of the list |
| Coordinates.ToGlobalUndoesSearch | dm/src/display_manager.cpp:3061-3133 | the case in which the far edges fit: a point on a listed display is found and converted back to itself |
| AbilityDisplays.RunIsValid | dm/src/display_manager.cpp:1088-1150 | over every run no invalid display id and no pair twice is stored |
| AbilityDisplays.AdditionAdds | dm/src/display_manager.cpp:1088-1105 | an addition leaves the pair in the list once, appended if it was not there; without token or valid display it leaves the list alone |
| AbilityDisplays.WithoutKeepsOrder | dm/src/display_manager.cpp:1128-1150 | what an update keeps stays in its order |
| AbilityDisplays.UpdateLeavesOneEntry | dm/src/display_manager.cpp:1128-1150 | an update leaves its token with exactly the new entry, last in the list, and other tokens with theirs |
| AbilityDisplays.RemovedIsValid | dm/src/display_manager.cpp:1107-1126 | a removal takes out exactly the oldest entry of its token, or nothing if there is none |
| AbilityDisplays.FindToken | dm/src/display_manager.cpp:1118-1124 | the search finds the oldest entry of the token, the one that a removal takes out |
| AbilityDisplays.DisplayIdList.GetCallingAbilityDisplayId | dm/src/display_manager.cpp:1152-1172 | the early-exit loop returns a display if and only if the list is not empty and every entry is on that display |
| AvailableArea.RunKeepsInv | dm/src/display_manager.cpp:2245-2414 | in every run, with failing remote calls and a dying server, the agent exists exactly while some listener is registered, and no stored per-display set is empty |
| AvailableArea.RegisteredExactlyWhileItStands | dm/src/display_manager.cpp:2329-2414 | a listener is registered, for all displays or for one, exactly when its last successful registration has not been undone |
| AvailableArea.RegistrationSucceedsExactly | dm/src/display_manager.cpp:2245-2357 | in every run a registration succeeds exactly if the remote call does or somebody listens already; a failed one changes nothing, and no other registration is touched |
| AvailableArea.UnregistrationTakesOff | dm/src/display_manager.cpp:2360-2414 | an unregistration takes off exactly the registration it names, or changes nothing |
| AvailableArea.AvailableAreaListeners.NotifyAvailableAreaChanged | dm/src/display_manager.cpp:2099-2120 | counts of calls: two for a listener of all displays, one for a per-display registration if the event is for its display and none otherwise |
| AvailableArea.AvailableAreaListeners.UnregisterAvailableAreaListenerFor | dm/src/display_manager.cpp:2387-2414 | the whole new state and the error for an unknown listener |
| ScreenAgent.AgentStandsExactlySinceARegistration | dm/src/screen_manager.cpp:470-497 | in every run, deaths included, the agent is registered exactly if a successful registration has not been followed by a death or an unregistration that leaves no screen, group or virtual-group listener |
| ScreenAgent.RunKeepsInv | dm/src/screen_manager.cpp:310-497 | without a death, any screen, group or virtual-group listener has the agent, and an agent has some listener |
| ScreenAgent.RegisteredExactlyWhileItStands | dm/src/screen_manager.cpp:310-339 | a listener of any kind is registered exactly when its last successful registration has not been undone |
| ScreenAgent.RegistrationSucceedsExactly | dm/src/screen_manager.cpp:310-497 | a registration succeeds exactly if the agent is there or the remote call succeeds; both events touch their own listener only |
| ScreenAgent.RecordListenersLoseTheAgent | dm/src/screen_manager.cpp:920-923 | record listeners are left without the agent exactly by an unregistration after which they alone remain |
| DisplayStateProtocol.CallbacksKeepThePromise | dm/src/display_manager.cpp:2448-2609 | in every interleaving without a lost unregistration each invocation carries its call's state, a call returning true invokes its callback exactly once, or not yet while its message, the only one, is waiting, and all other calls invoke nothing |
| DisplayStateProtocol.StepKeepsInv | dm/src/display_manager.cpp:2579-2609 | each step of client and server keeps the invariant that ties callback slot, agent, message queue and invocation counts together |
| DisplayStateProtocol.IdleIsSafeExactlyWithoutLeftovers | dm/src/display_manager.cpp:593-604 | from an idle state all continuations without a further lost unregistration pass the right states if and only if no agent and no message was left behind at the server |
| DisplayStateProtocol.LossIsReachable | dm/src/display_manager.cpp:598-602 | one failed unregistration leads to such an unsafe idle state |
| DisplayStateProtocol.ServerAnswers | dmserver/src/display_power_controller.cpp:32-68 | over every run a served call that is reached returns true exactly if the state its request asked for is on or off and differs from that of the last successful call; then each agent gets one message with it |
| DisplayStateProtocol.PowerIsLastServed | dmserver/src/display_power_controller.cpp:36-66 | over every run the server's state is the one asked for by the last successful call, or unknown |
| DisplayStateProtocol.CallIsTakenExactlyWhenIdle | dm/src/display_manager.cpp:2579-2609 | over every run without a lost unregistration a call is turned away exactly if it has no callback or another call, its message or its clearing is not finished; otherwise it is sent, or fails if the agent cannot be registered |
| DisplayStateProtocol.DeliveryInvokesStoredCallback | dm/src/display_manager.cpp:2448-2462 | over every run a delivered message invokes the stored callback once with its state, or is dropped without one |
| DisplayStateProtocol.DisplayStateSystem.ServerSetDisplayState | dmserver/src/display_power_controller.cpp:32-68 | the server accepts exactly a new state that is on or off, and sends one notification to each agent |
| DisplayStateProtocol.DisplayStateSystem.TakeCallbackSlot | dm/src/display_manager.cpp:2581-2604 | the locked section of the call: rejection, callback slot, agent registration |
| EdidCea.ParseBpcFromCEABlock | edidparse/edidparse.cpp:227-247 | for all bytes the nested walks give the depth of the first HDMI vendor block among the decoded data blocks of all CEA extensions, or 8; every read is in range and every loop ends |
| EdidCea.ParseCeaDataBlocks | edidparse/edidparse.cpp:199-213 | the walk from offset 4 to the timing descriptors finds the first HDMI vendor block of the decoded blocks |
| EdidCea.TryParseHdmiVsdb | edidparse/edidparse.cpp:181-197 | a block of length six or more with the HDMI identifier bytes, and its flags byte |
| EdidCea.DecodeUndoesEncode | edidparse/edidparse.cpp:199-213 | decoding visits exactly the headers that were laid out, in order, and gives the blocks back, wherever they lie in the bytes |
| EdidCea.DepthOfFlags | edidparse/edidparse.cpp:167-179 | for all flag bytes the depth is the largest of 16, 12 and 10 whose deep colour bit is set, or 8 |
| EdidCea.CeaDepthOfImage | edidparse/edidparse.cpp:215-247 | for any list of encoded extensions, whatever bytes follow, the result is the depth of the first HDMI vendor block in their order, or 8 |
| EdidCea.DepthOfImage | edidparse/edidparse.cpp:167-247 | the depth of an encoded image is the largest one flagged in the first block with tag 3, six bytes and the identifier 0x000C03 |
| EdidCea.DefaultDepth | edidparse/edidparse.cpp:227-247 | it is 8 if no block is an HDMI vendor block, or if announced extensions are missing |
| EdidCea.FirstHdmiIsFirst | edidparse/edidparse.cpp:204-211 | the found depth belongs to a vendor block with none before it; none is found only if there is none |
| EdidParser.TextRoundTrip | edidparse/edidparse.cpp:102-111 | text of up to 13 bytes stored as section 3.10.3 of VESA E-EDID says is read back unchanged if and only if it is printable; any other line is read as nothing |
| EdidParser.LastTextIsLast | edidparse/edidparse.cpp:124-142 | a field is the text of the last descriptor with its tag, or the caller's old value |
| EdidParser.ParseDetailedTiming | edidparse/edidparse.cpp:113-152 | the loop over the four descriptors sets the three texts, and the model name to the first of them that is not empty |
| EdidParser.BpcIsADepth | edidparse/edidparse.cpp:249-262 | the depth is 0, 6, 8, 10, 12, 14 or 16 for all bytes |
| EdidParser.BpcUndoesEncode | edidparse/edidparse.cpp:249-258 | a depth code stored as section 3.6.1 of E-EDID says is read as its depth |
| EdidParser.VendorDataRoundTrip | edidparse/edidparse.cpp:280-301 | manufacturer letters, product code and serial number are read back from their encoding |
| EdidParser.NumbersOfImage | edidparse/edidparse.cpp:280-325 | letters, product code, serial number, week, year, revision and screen size of an encoded base block are read back; the size only if both sides are given |
| EdidParser.TextsOfImage | edidparse/edidparse.cpp:113-152 | the texts of the last descriptors tagged 0xFC, 0xFE and 0xFF of an encoded base block, and the model name: the first of name, serial number and text that is not empty |
| EdidParser.DepthOfWholeImage | edidparse/edidparse.cpp:227-262 | the depth of an encoded image of every revision: from the input byte, from the flags of the first HDMI vendor block, or none |
| EdidParser.ParseBaseEdid | edidparse/edidparse.cpp:264-325 | 0 exactly for non-null arguments, one to four blocks and the magic header, with all fields set as specified; otherwise -1 and an unchanged record |
| Displays.RotationsKeepOrientation | dmserver/src/abstract_display.cpp:31-45 | after any rotations a new display has its mode's size oriented by the last rotation, and nothing else changed |
| Displays.OwnModeAndOffsetChangeNothing | dmserver/src/abstract_display_controller.cpp:477-524 | exactly which size events leave a display alone, for all displays, compressed ones included |
| Displays.NewModeIsWrittenUnrotated | dmserver/src/abstract_display_controller.cpp:499-506 | after a size event a display is oriented by the new mode if and only if its rotation is vertical, the mode square, or it was oriented by it before |
| Displays.CompressionIsPathIndependent | dmserver/src/abstract_display_controller.cpp:290-364 | from offset (0, 0) size, offset and compression status after any rotation events depend on mode, setting and last rotation only |
| Displays.PathIndependentExactlyFromOrigin | dmserver/src/abstract_display_controller.cpp:342-360 | with an effective compression path independence holds if and only if the start offset is (0, 0) |
| Displays.CompressionCutsBothSides | dmserver/src/abstract_display_controller.cpp:313-364 | the whole effect of any rotation events: with a usable setting a display wider than high loses the same strip above and below, any other is the full panel as its rotation shows it |
| Displays.ResizeKeepsSettled | dmserver/src/abstract_display_controller.cpp:477-524 | a size event with the screen's own mode keeps what rotations leave if and only if its offset is (0, 0) and the display is not compressed, or by nothing |
| Displays.MixedRuns | dmserver/src/abstract_display_controller.cpp:290-364 | over every run that mixes rotation and size events the display is as rotations alone would leave it if and only if no size event came while it was compressed, or a later turn repaired it; otherwise its exact damaged state |
| Displays.UpdateDisplaySize | dmserver/src/abstract_display_controller.cpp:477-524 | the new size and offset, and exactly when a change is reported |
| Displays.ProcessDisplayCompression | dmserver/src/abstract_display_controller.cpp:313-364 | the new state of the default display, no change for others or an unusable setting, and exactly when a change is reported |
| Displays.AbstractDisplay.RequestRotation | dmserver/src/abstract_display.cpp:193-206 | sides are exchanged exactly between vertical and horizontal rotations; true exactly for a new rotation |
| DisplayTable.RunKeepsTable | dmserver/src/abstract_display_controller.cpp:147-263 | over every run keys are the displays' ids below the counter, the notifications describe exactly the table, and creates minus destroys is its size |
| DisplayTable.CreatedIdsAreDistinct | dmserver/src/abstract_display_controller.cpp:571-584 | ids are created in increasing order, never again |
| DisplayTable.StepIsInjectiveExactlyWithoutCollision | dmserver/src/abstract_display_controller.cpp:216-238 | a step keeps one display per screen if and only if the stated collision does not occur before it |
| DisplayTable.OrderlyRunsAreInjective | dmserver/src/abstract_display_controller.cpp:553-649 | a screen has at most one display over every run whose alone connects are for screens without display and whose alone and mirror disconnects are of the default screen |
| DisplayTable.ExpandConnectPlacesDisplay | dmserver/src/abstract_display_controller.cpp:606-649 | an expand connect of a screen without display adds one display with the next id, the place in the group and the oriented size of the screen's own mode, or of the default screen's mode if it is virtual; nothing changes exactly if that mode is missing or the screen has a display |
| DisplayTable.AloneConnectPlacesDisplay | dmserver/src/abstract_display_controller.cpp:147-162 | a connect to an alone group or as the only child adds a display at the origin exactly for the default screen with a mode |
| DisplayTable.OtherEventsChangeNothing | dmserver/src/abstract_display_controller.cpp:157-214 | without a group, for mirror connects, for other combinations and for screens without display nothing changes |
| DisplayTable.ExpandDisconnectRemovesOne | dmserver/src/abstract_display_controller.cpp:240-263 | an expand disconnect removes just the screen's last display, if it has one, notifies it, and moves the displays of all other screens to offset (0, 0) |
| DisplayTable.ExpandConnectIsUndone | dmserver/src/abstract_display_controller.cpp:606-649 | connecting and disconnecting an expanded screen leaves the table with the other displays at the origin and one id used up |
| DisplayTable.NormalDisconnectRebinds | dmserver/src/abstract_display_controller.cpp:216-238 | an alone or mirror disconnect moves the screen's first display to the default screen, if that has a mode, and removes it with an empty group; when its size agrees with its rotation |
| DisplayTable.AbstractDisplayController.OnAbstractScreenConnect | dmserver/src/abstract_display_controller.cpp:147-171 | the whole new table |
| DisplayTable.AbstractDisplayController.OnAbstractScreenDisconnect | dmserver/src/abstract_display_controller.cpp:173-214 | the whole new table |
| DisplayTable.AbstractDisplayController.ProcessExpandScreenDisconnected | dmserver/src/abstract_display_controller.cpp:240-263 | the highest display of the screen is found, all other displays move to the origin |
| CutoutGeometry.KeepsExactly | dmserver/src/display_cutout_controller.cpp:102-114 | for all unsigned 32-bit panels: exactly when the filter's test is right about an initialised rectangle lying in the panel, side by side; it is if no side's end wraps on its own |
| CutoutGeometry.CheckBoundingRectsBoundary | dmserver/src/display_cutout_controller.cpp:92-115 | the erasing loop leaves the rectangles that pass the test, in order |
| CutoutGeometry.FilterSelects | dmserver/src/display_cutout_controller.cpp:102-114 | every passing rectangle stays as often as listed and no other stays |
| CutoutGeometry.RotateRectIsTheRotation | dmserver/src/display_cutout_controller.cpp:274-303 | each formula keeps the area of an in-panel rectangle; it lands in the turned panel, and covers exactly the rotated pixels, if and only if its new corner fits in 32 bits (or it is empty) |
| CutoutGeometry.RotateRectComposes | dmserver/src/display_cutout_controller.cpp:274-303 | the formulas compose like quarter turns for all rectangles and panels, wrapping included: 90 twice is 180, 180 twice and 90 then 270 are the identity |
| CutoutGeometry.TransferBoundingRects | dmserver/src/display_cutout_controller.cpp:233-285 | what the caller's list holds afterwards in each rotation and for a missing display, mode or rectangle list |
| CutoutGeometry.TransferLosesQuarterAndHalfTurns | dmserver/src/display_cutout_controller.cpp:287-303 | the caller gets the rotated rectangles exactly at 0 and 270 degrees or if there are none |
| CutoutGeometry.TransferWithoutRotation | dmserver/src/display_cutout_controller.cpp:233-285 | the caller's list without rectangles, display or mode, and at 90 and 180 degrees |
| CutoutGeometry.StripsByPixels | dmserver/src/display_cutout_controller.cpp:196-203 | the unrotated strips cover exactly the pixels that the boundary cuts off on their sides |
| CutoutGeometry.StripsByRotatedPixels | dmserver/src/display_cutout_controller.cpp:196-231 | under every rotation the strips cover exactly the rotated pixels of the side that has come to lie there; the top strip at 180 degrees if it is square |
| CutoutGeometry.StripsAgreeWithRotation | dmserver/src/display_cutout_controller.cpp:188-231 | the strips written per rotation are the rotated unrotated strips, for all sizes; the top strip at 180 degrees exactly if it is empty or square |
| CutoutGeometry.StripsLieInside | dmserver/src/display_cutout_controller.cpp:188-231 | which strips lie in the turned panel: the left one, the right and bottom ones exactly if their corners fit in 32 bits, the top one at 180 degrees exactly under the stated condition |
| CutoutGeometry.CutoutController.CalcBuiltInDisplayWaterfallRects | dmserver/src/display_cutout_controller.cpp:145-186 | no strips without waterfall display, boundary or mode, for negative entries or more than half a side; otherwise the strips of the rotation |
| ScreenGroups.StepKeepsPartitionExactly | dmserver/src/abstract_screen.cpp:661-734 | a step keeps the relation between groups' maps and screens' group ids if and only if it is not an addition of a grouped screen or a removal from a foreign group |
| ScreenGroups.OrderlyRunsKeepPartition | dmserver/src/abstract_screen.cpp:661-753 | over every run of additions of ungrouped screens, reconnects and removals of members a screen is in a group's map exactly if its group id names the group |
| ScreenGroups.DefaultScreenIsSetAsideLast | dmserver/src/abstract_screen.cpp:736-753 | over every run a group's recorded default screen is the one that was set aside last |
| ScreenGroups.DefaultScreenComesBack | dmserver/src/abstract_screen.cpp:661-698 | a real screen with a display node that was set aside is accepted again at its new point and stays a child; a child that was not is refused |
| ScreenGroups.RemoveUndoesAdd | dmserver/src/abstract_screen.cpp:714-734 | removing a fresh child restores group and screen except for the last group and the mirror choice |
| ScreenGroups.MirrorChoice | dmserver/src/abstract_screen.cpp:626-653 | a mirror group with children that takes a screen in mirrors a child or the default screen, and keeps a child it mirrored |
| ScreenGroups.AddAllJoins | dmserver/src/abstract_screen.cpp:700-712 | after AddChildren the group has what it had and all listed but a default screen that only reconnects; true exactly if every other screen was fresh and listed once, and a default screen at each place reconnects or joins |
| ScreenGroups.ScreenAfter | dmserver/src/abstract_screen.cpp:661-712 | the final state of any screen, listed or not, however often, told from the state before and its first and last listed points |
| ScreenGroups.MirrorAfter | dmserver/src/abstract_screen.cpp:626-653 | the mirror screen after any list of additions: the default screen exactly if one of them was a reason to replace the old choice |
| ScreenGroups.FreshScreensJoinAtFirstPoint | dmserver/src/abstract_screen.cpp:671-712 | a screen that the group did not have joins, with a display node exactly if it had one or can get one, and then at its first listed point unless it is the real default screen |
| ScreenGroups.DeduplicationIsTransparent | dm/src/screen_manager.cpp:509-517 | the list and the client's list of first occurrences leave the same group except for the mirror choice, and the same screens if and only if no default screen that gets a display node is listed at different first and last points |
| ScreenGroups.DeduplicationKeepsMirror | dm/src/screen_manager.cpp:509-517 | they leave the same mirror screen if and only if it was the default already or no repetition alone replaces it; none does unless a mirror group without children is first given its repeatable default screen |
| ScreenGroups.RepetitionMovesDefaultScreen | dmserver/src/abstract_screen.cpp:671-696 | in the remaining case the default screen ends at its last listed point, and without the repetitions at its first |
| ScreenGroups.RepetitionMovesMirror | dmserver/src/abstract_screen.cpp:629-638 | a list of one repeated screen for which the mirror screens differ |
| ScreenGroups.MakeExpand | dm/src/screen_manager.cpp:499-517 | the loop sends first occurrences with their points; refused exactly if empty or over 32 |
| ScreenGroups.FirstIdsAreDistinct | dm/src/screen_manager.cpp:511-517 | the sent ids are distinct, and the list itself if it had no repetition |
| ScreenGroups.AbstractScreenGroup.AddChild | dmserver/src/abstract_screen.cpp:661-698 | the new states of group and screen and the result in every case |
| ScreenGroups.AbstractScreenGroup.AddChildren | dmserver/src/abstract_screen.cpp:700-712 | the states of the group and of all screen objects after the loop, also with one object listed twice |
| ConfigTokens.Split | dmserver/src/display_manager_config.cpp:38-52 | the loop gives the pieces between the occurrences of the pattern, and no piece for an empty pattern and text |
| ConfigTokens.SplitByOneCharacter | dmserver/src/display_manager_config.cpp:38-52 | for one character joining the pieces gives the text back, no piece contains it, and there is one piece more than separators |
| ConfigTokens.SplitUndoesJoin | dmserver/src/display_manager_config.cpp:38-52 | pieces without the separator come back from their joined text |
| ConfigTokens.JoinUndoesSplitExactly | dmserver/src/display_manager_config.cpp:38-52 | joining the pieces gives every text back if and only if no proper beginning of the pattern is also its end |
| ConfigTokens.JoinUndoesSplit | dmserver/src/display_manager_config.cpp:38-52 | for any text and pattern the pieces are free of the pattern, and joining gives this text back if and only if the scan leaves nothing over |
| ConfigTokens.SplitCanLoseTheEnd | dmserver/src/display_manager_config.cpp:41 | a two-character pattern for which the end of the text is lost |
| ConfigTokens.IsNumber | dmserver/src/display_manager_config.cpp:54-62 | true exactly for strings of digits, the empty one included |
| ConfigTokens.ReadIntNumbers | dmserver/src/display_manager_config.cpp:136-163 | unchanged, stored or thrown, by the tokens in order |
| ConfigTokens.ReadTokensOutcome | dmserver/src/display_manager_config.cpp:150-158 | stored exactly if all tokens are numbers that fit; throws exactly if the first that is not consists of digits only or is empty |
| ConfigTokens.PrintedListIsReadBack | dmserver/src/display_manager_config.cpp:150-162 | a list of non-negative numbers printed with single spaces is read back exactly if all are ints, and throws otherwise |
| ConfigTokens.TrailingSpaceThrows | dmserver/src/display_manager_config.cpp:151-157 | the same list with one more space at the end throws |

## Left out

- DisplayCache.DisplayManagerImpl.CommitDisplay: the server's answer is about the display that was asked for; an answer
  naming another or an invalid id, which stores a null display, is not part of this model.
- ConfigTokens.Split: an empty pattern with a text that is not empty is left out, because the source's loop does not end
  on it (`EmptyPatternMakesNoProgress`).
- The clock of `DisplayCache` is strictly increasing and never zero; the source reads the system clock, which can
  be set back. The age test of a cached display is an input of the check step.
- The server in `DisplayStateProtocol` has one client; a remote call that fails has not been carried out there. Messages
  may be delivered at any time after they are sent, which includes the synchronous delivery of the source.
- `DisplayStateProtocol` and `DisplayCache` have no death of the server.
- Floating-point values (pixel ratio, dpi) are left out; the compression size in pixels is an input.
- Render-service nodes and transactions are left out, except whether a screen has a node and whether one can be made.
- The default screen, the groups and the modes that event handlers read are inputs of the events; the screen
  controller that keeps them is not part of this model.
- The branch of `BindAloneScreenLocked` for a dummy display is left out: that field is never set to a display.
- `DisplayTable` has connects and disconnects only; rotation and size events are proved per display in `Displays`, the
  change of the pixel ratio is left out.
- Loops over ordered maps scan the ids in increasing order, and a loop over a set takes its elements in any order.
- The parsing of SVG cutout paths and of the XML file is left out; rectangles and text are inputs.
- `ParseBaseEdid` sums up vendor bytes for its log only; that loop is left out.
- Ids are unbounded numbers; the wrap-around of the 64-bit display counter is left out.
- The other listener kinds of the client, fold and brightness among them, repeat the pattern of `AvailableArea`.
