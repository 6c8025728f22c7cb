# zflow in Dafny

zflow lets one keyboard and pointer control several computers. This project
models the parts of it where the behaviour is hard to see from the code alone
and proves what they promise:

- the **shared screen arrangement** and its editors, above all the search that
  resizes one tile (`Tiles`, `Resize`, `ResizeProofs`, `Editors`), and the
  mapping of a crossing back to a pixel (`ReturnMapping`);
- the **daemon's protocols**: gossip of the arrangement (`Gossip`,
  `GossipProofs`), two computers dialing each other at once (`Dial`), moving
  the one outbound activation between sessions (`Hop`), and the seat with its
  grace period and the effects it lets through (`Seat`);
- **discovery and pairing**: the tables of computers around (`Neighbors`), the
  limit on hellos (`HelloLimit`), the one-shot window (`PairingWindow`) and
  the table of trusted keys (`Trust`);
- **stateful pieces**: motion loss (`Metrics`), keys held on several devices
  (`Capture`) and the GNOME handoff (`EdgeGeometry`, `Handoff`,
  `HandoffProofs`, `HandoffShell`).

Objects the program changes in place are classes whose methods are proved
against functions, most with a ghost history that ties them to the results on
whole runs. Protocols are state machines whose steps are what runs between two
awaits, and the theorems are about every run. Code that only computes is
functions.

Instants are integers that never go back, fractions and f64 values are exact,
and integers are unbounded except where a width is written out (u64 versions
and counters, the i32 canvas). `dafny verify dfyconfig.toml` checks the whole
project.

## Promises that do not hold as stated

Each has a concrete run and, where one exists, the exact condition.

- **Hop safety.** The handlers of OutboundEnded and Closed look at
  `active_outbound` and clear it under two locks without the policy lock, and
  close_all clears it some time after it took the sessions
  (src/daemon.rs:2292-2361, 2636-2644). A hop in between leaves an activation
  open that nothing names: `Hop.HopBetweenTheLocks`. Over all interleavings
  safety holds exactly when no clear comes while the active one is open:
  `Hop.SafeExactlyWhen`.
- **Simultaneous dials.** `connect` can keep a session whose Closed event was
  handled already, since it does not check (src/daemon.rs:928-989), so a
  settled state can have one computer keep a dead session and the other none:
  `Dial.SettledCanDiffer`. The two agree exactly when no connect of the run
  does that (`Dial.SettledAgree`), and no settled state has them keep two
  different live connections. `retire_session` reads the session to close
  after `accept_connection` decided to, so it can close this computer's own
  winning dial (src/daemon.rs:1033-1134): `Dial.OwnDialCanBeRetired`. The
  lower fingerprint's connection survives exactly when that never happens.
- **Closed never reopens.** True as long as no trusted computer is forgotten:
  `PairingWindow.ClosedNeverReopens`. A window closed by a computer being
  placed may leave its file at eligible when the save fails
  (src/pairing_window.rs:156-160, 245-259). The next start then finds a
  trusted computer and closes it again (src/daemon/arrange.rs:269-273), but
  once that computer is forgotten a start can open it:
  `PairingWindow.ClosedCanReopen`, `PairingWindow.ReopensExactlyWhen`. It still
  opens at most once in all.
- **One entry per key.** True of every sequence of calls on a table whose keys
  are spelled as the program writes them: `Trust.SequenceKeepsSound`. A key
  saved by hand in capital hex digits is trusted a second time
  (src/hello.rs:117-142), since the text is compared:
  `Trust.CapitalsAreTrustedTwice`, `Trust.TrustKeepsKeysUnique`.
- **Dead corners.** The comment on DEAD_CORNER says outbound barriers stop
  short of the corners. A segment is trimmed only when it begins exactly at
  the corner, so one that begins a pixel further in is not
  (packaging/gnome-extension/shell.js:31-33, 178-181):
  `EdgeGeometry.CornerCanBeCut`, `EdgeGeometry.CornersAreLeftExactlyWhen`.

## Model

| member | source | states |
|---|---|---|
| Tiles.Validate | src/desktop.rs:382-420 | The loop over tiles accepts a layout exactly when it is valid: editor and keys are fingerprints, the version is in range, every tile is sound and on the canvas, and no tile's name appears twice. |
| Tiles.TouchingIsMutual | src/desktop.rs:727-753 | Tiles that touch do not overlap, and a touches b on one side exactly when b touches a on the opposite side. |
| Tiles.OverlapsExactly | src/desktop.rs:749-753 | Two tiles overlap exactly when they share a pixel. |
| Tiles.TouchingExactly | src/desktop.rs:727-743 | Tiles that do not overlap touch on a side exactly when a pixel of one is next to a pixel of the other across it. |
| Tiles.FreeSpot | src/desktop.rs:664-695 | The tile found is on the canvas, clear of all others, and touches its anchor or stands right of all; there is none only if the spot right of all is off the canvas. |
| Tiles.FreeSpotIsFirst | src/desktop.rs:664-708 | It goes right of the anchor, lined up with its top or left, where there is room, else left, below, above, else past everything in the anchor's row. |
| Tiles.StringLessExactly | src/desktop.rs:435-439 | Editors are ordered by the first character in which they differ, a prefix first. |
| Resize.Push | src/desktop.rs:527-538 | The push loop ends and gives the arrangement where exactly the tiles that must move slid, each once, or nothing when one of those leaves the canvas. |
| Resize.ShovedSettles | src/desktop.rs:527-538 | Once those tiles moved no unmoved tile overlaps a moved one, and they are the least set for which that holds. |
| Resize.SlideAll | src/desktop.rs:539-545 | Sliding every tile past the side that moved, or nothing if one leaves the canvas. |
| Resize.CountPairs | src/desktop.rs:561-575 | The scoring loops count exactly the pairs that touched before and keep touching, by kind. |
| Resize.ScoreTiles | src/desktop.rs:557-585 | The score is the contacts kept on the same side, on any side, whether it touches anything, other contacts kept, and the tiles moved, counted as sets of pairs. |
| Resize.Fitting | src/desktop.rs:586-602 | The candidates kept are exactly those on the canvas in which no pair that changed overlaps. |
| Resize.BestIndex | src/desktop.rs:597-604 | The candidate taken is the first one that no other beats. |
| Resize.Choose | src/desktop.rs:521-604 | The whole search gives the choice among pushed, slid and placed candidates that the lemmas below are about. |
| Resize.Edited | src/desktop.rs:605-610 | An edit is valid, one version on, stamped by its editor, and newer than what it replaces. |
| Resize.WithDisplaySize | src/desktop.rs:453-611 | Resizing a tile, or adding the one not there yet, with every early return. |
| ResizeProofs.ChoiceIsBest | src/desktop.rs:588-604 | There is a choice exactly when some candidate keeps tiles apart; it is a candidate, changes nothing but positions and the one size, and no candidate that keeps tiles apart scores better. |
| ResizeProofs.ChoiceRanksFirst | src/desktop.rs:557-585 | Against every candidate that keeps tiles apart, the choice keeps at least as many contacts on the same side, then on any side, then touches if that one does, then keeps as many of the others' contacts, and then moves no more tiles. |
| ResizeProofs.ScoreCounts | src/desktop.rs:557-575 | The contact counts of a score are the numbers of pairs that touched and still touch on the same side or on any, with the resized tile and without. |
| ResizeProofs.ScoreSays | src/desktop.rs:576-585 | The rest of a score is whether the tile touched and touches anything, and how many tiles moved, itself counted when it kept no corner. |
| ResizeProofs.CornersExactly | src/desktop.rs:521-527 | The corners tried are exactly the ways to keep one corner of the tile where it was. |
| ResizeProofs.PastAllFits | src/desktop.rs:546-556 | When the right edge of all other tiles is on the canvas there is always a choice. |
| ResizeProofs.BesideIsTried | src/desktop.rs:546-556 | Every spot of the resized tile lined up beside another tile is among the candidates, so room there is enough for a choice. |
| ResizeProofs.TargetsApart | src/desktop.rs:502-520 | Sliding around a growing tile keeps any two tiles apart that were. |
| ResizeProofs.TargetKeepsContact | src/desktop.rs:502-520 | It keeps every contact of the growing tile, on the same side. |
| ResizeProofs.SlidContact | src/desktop.rs:502-520 | For any new size and corner: a tile that touched slides with that side and only across it, so it touches there still exactly when the two still face each other, and else not at all. |
| ResizeProofs.SlidKeepsGaps | src/desktop.rs:502-520 | For any new size and corner: each tile past a side keeps its distance from it, and stays along an axis on which it is past neither. |
| ResizeProofs.SlidFits | src/desktop.rs:539-545 | A slid candidate of a growing tile is disjoint and keeps the full count of contacts. |
| ResizeProofs.FullCountKeepsContacts | src/desktop.rs:558-577 | Counting as many same-side contacts as before means keeping each of them. |
| ResizeProofs.GrowingKeepsCrossings | src/desktop.rs:444-611 | From a disjoint layout, if some slid candidate stays on the canvas, whatever a growing resize returns keeps every contact of the tile on the same side. |
| ResizeProofs.FacingKeepsCrossings | src/desktop.rs:444-611 | From any layout and to any size: if some slide stays on the canvas, keeps tiles apart and leaves every tile that touched facing the resized one, whatever a resize returns keeps every contact on its side. |
| ResizeProofs.RowKeepsCrossings | src/desktop.rs:444-611 | So a tile whose contacts are all left and right loses none when its width grows or shrinks, nor one with contacts above and below when its height does, while some slide fits. |
| ResizeProofs.ChoiceKeepsContacts | src/desktop.rs:586-604 | If any candidate keeps tiles apart and every contact on its side, so does the one chosen. |
| ResizeProofs.ResizeKeepsApart | src/desktop.rs:457-611 | Whatever a resize returns is valid, newer, disjoint if the layout was, and differs only by positions and the one size, or by one tile of that key and size added at the end. |
| ResizeProofs.ResizeFits | src/desktop.rs:457-611 | A resize of a valid layout to another valid size returns a layout exactly when the version can go up and some candidate keeps tiles apart, so always when the right edge of the others is on the canvas. |
| ResizeProofs.MissingTileIsAdded | src/desktop.rs:463-480 | A missing tile is added exactly when there is room and a spot for it and key, size and version allow it, and it goes to the first room beside the first tile. |
| Editors.WithOthersFrom | src/desktop.rs:421-434 | The edit's tiles stay in front, only tiles the editor could not see and does not cover are added, in order until it is full, disjointness is kept, and from a disjoint layout every such tile gone through is added. |
| Editors.WithTilesFor | src/desktop.rs:613-644 | The new layout is valid, newer, extends the old one by one clear tile per missing key, stays disjoint, and covers every key unless full. For a valid layout there is one exactly when some key has no tile, there is room, every spot is on the canvas, the version can go up, and this computer's key, the keys added and the size are valid. |
| Editors.AddedBesideOwn | src/desktop.rs:613-636 | Each goes to the first room beside this computer's own first tile: right, left, below, above, past everything. |
| Editors.AddsExactlyWhen | src/desktop.rs:618-638 | Tiles are added exactly when some key lacks one and the layout has room. |
| Editors.WithKeyReplaced | src/desktop.rs:645-661 | It succeeds exactly when the old key has a tile, the new one has none, the version can go up and both keys are fingerprints; replacing back gives the old tiles. |
| Editors.RenamedBack | src/desktop.rs:645-661 | Renaming a key to an unused one and back is the identity, and keeps tiles disjoint. |
| Editors.RenamedIsSound | src/desktop.rs:645-661 | The renamed layout is valid exactly when the version can go up and both keys are fingerprints. |
| Editors.InitialLayout | src/daemon.rs:1941-1978 | The first layout is valid and disjoint, holds this computer and each distinct peer in order up to the limit, and each tile touches the next on its right. There is one exactly when the size is valid and the first MAX_SHARED_TILES distinct keys are fingerprints. |
| Editors.RowIsSound | src/daemon.rs:1951-1978 | A row of MAX_SHARED_TILES tiles never leaves the canvas, so it is valid exactly for a valid size and fingerprints. |
| Editors.InARow | src/daemon.rs:1951-1975 | Sound tiles each placed at the end of the one before are disjoint and touch in turn, saturation included. |
| ReturnMapping.FractionIsAccepted | src/desktop.rs:118-160 | A fraction exists exactly for a valid mapping on valid monitors, and the position code accepts it. |
| ReturnMapping.FractionMonotone | src/desktop.rs:135-150 | Further along the edge is never an earlier fraction. |
| ReturnMapping.FractionEnds | src/desktop.rs:135-150 | Up to the start of the local range it is the receiver's start, and from its end on the receiver's end. |
| ReturnMapping.PositionIsNearest | src/desktop.rs:152-184 | A position is answered exactly when it is in range and some monitor meets the edge line; the point is on a monitor, on that line, and nearest of all such points to the one asked for, which the next two rows place. |
| ReturnMapping.PositionIsAtEdge | src/desktop.rs:186-217 | The point is at most three pixels inside the outermost side of the monitors on the mapping's own edge. |
| ReturnMapping.PositionReadsBack | src/desktop.rs:135-217 | On any monitors it is the nearest monitor point to one whose own fraction is the position, within the slack. |
| ReturnMapping.BoundsAreAttained | src/desktop.rs:81-100 | Each side of the bounding box is the side of some monitor. |
| ReturnMapping.RoundTrip | src/desktop.rs:135-217 | On one monitor, position then fraction comes back within one step plus one pixel's worth of the remote range. |
| Gossip.NewerIsTotal | src/desktop.rs:435-439 | Any two layouts are ordered by version then editor, and are level exactly when both agree. |
| GossipProofs.InvHolds | src/daemon.rs:680-762 | In every run, whenever one end of a live session keeps something newer than the other, that layout is on its way or a task is going to send it. |
| GossipProofs.KeptNeverDecreases | src/daemon.rs:737-762 | What a computer keeps never gets older, over any run with restarts and broken links. |
| GossipProofs.KeepIsKept | src/daemon.rs:737-762 | After keeping a layout the computer keeps it or something as new, whether it was made here or arrived. |
| GossipProofs.EditsAreKept | src/daemon.rs:737-762 | In every run: once a computer has nothing left to do, it keeps every edit made there since it last started, or something as new. |
| GossipProofs.StampsIdentifyLayouts | src/daemon.rs:737-762 | Any two layouts kept, queued or on their way anywhere with the same version and editor are equal. |
| GossipProofs.QuietComputersAgree | src/daemon.rs:680-762 | Two connected computers with nothing on its way between them and nothing left to do keep the same layout. |
| GossipProofs.QuietNetworkAgrees | src/daemon.rs:680-762 | So do any two computers joined by a chain of such connections: a network at rest keeps one layout. |
| GossipProofs.QuietNetworkKeepsEdits | src/daemon.rs:680-762 | And in a connected network at rest every computer does, for every such edit. |
| GossipProofs.ArrivalIsKeptOrAnswered | src/daemon.rs:692-735 | A newer layout that arrives is to be kept, an older one is answered over the session it came on. |
| Hop.SafeExactlyWhen | src/daemon.rs:2292-2361 | Over every interleaving of what the policy lock covers with the separate locks of the OutboundEnded and Closed handlers and of close_all: after every step each open activation is the active one on its peer's live session, exactly when no handler's clear comes while the active one is open. |
| Hop.OrphanIsLost | src/daemon.rs:2293-2351 | A clear that does leaves that activation open and nothing naming it. |
| Hop.AtMostOneOpen | src/daemon.rs:1152-1314 | In every run in which no handler clears an open activation, at most one session has one open, it is registered and live, and it is the one recorded as active. |
| Hop.NothingActiveNothingOpen | src/daemon.rs:1546-1584 | In those runs, when none is recorded as active, no session has one open. |
| Hop.HopMovesOn | src/daemon.rs:1192-1261 | A hop leaves the old activation and opens and records the new one; a session that cannot be told to leave is closed. |
| Hop.EndLeavesOrCloses | src/daemon.rs:1263-1314 | Ending leaves nothing active, and the session is closed exactly when it could not be told. |
| Hop.BeginOpens | src/daemon.rs:1152-1190 | Handling the event that input goes to a peer opens an activation on the peer's session and records it, if that can be sent. |
| Hop.EndedIsHandled | src/daemon.rs:2292-2323 | With nothing in between, the handler of OutboundEnded leaves nothing active and closes the session. |
| Hop.ClosedIsHandled | src/daemon.rs:2324-2361 | With nothing in between, the handler of Closed takes the session out and leaves it active nowhere. |
| Hop.HopBetweenTheLocks | src/daemon.rs:2292-2309 | A run in which a session gives its activation up, its handler looks, input hops on, and the handler's clear leaves the new activation open with nothing active, for good. |
| Dial.SettledAgree | src/daemon.rs:928-1134 | In every settled state the two computers keep the same connection exactly when no connect of the run put a session in the map whose Closed event had been handled, with the map empty or this side winning. |
| Dial.KeepsEndedExactlyWhen | src/daemon.rs:966-982 | A computer keeps a session that had ended exactly when such a placement happened in its run. |
| Dial.SettledNeverDiffer | src/daemon.rs:928-1134 | No settled state has them keep two different live connections. |
| Dial.EndedDialIsKept | src/daemon.rs:960-989 | A run in which a dial's session is kept after its Closed event was handled. |
| Dial.SettledCanDiffer | src/daemon.rs:960-989 | That run goes on to a settled state in which one computer keeps a dead session and the other none. |
| Dial.LowSurvivesExactlyWhen | src/daemon.rs:1033-1134 | With dials and accepts inside the timeout and no failures, the lower fingerprint's connection survives exactly when no retirement closes its dialer's own dial. |
| Dial.SettledOnLow | src/daemon.rs:1907-1917 | Then a settled state has both computers on the connection dialed by the lower fingerprint. |
| Dial.ArrivalRefusedExactlyWhen | src/daemon.rs:1033-1075 | A connection that arrives is refused exactly when the session there is this computer's own dial, finished within CONNECT_TIMEOUT, and its fingerprint sorts first. |
| Dial.LateArrivalReplaces | src/daemon.rs:1033-1134 | Otherwise, as when it comes later, the dial there is closed and the new connection becomes the session. |
| Dial.OwnDialCanBeRetired | src/daemon.rs:1125-1134 | A timely run in which retiring closes the winning dial placed meanwhile. |
| Seat.SeatGrace.Observe | src/daemon.rs:1710-1724 | The state kept is the effective seat of the whole history of answers. |
| Seat.EffectiveAfter | src/daemon.rs:1710-1724 | One more answer: definite ones count at once, an unknown one only after a whole grace or when nothing definite came before. |
| Seat.SeatGrace.Deadline | src/daemon.rs:1725-1731 | Set exactly during a short unknown, and it is the instant from which another unknown answer takes over. |
| Seat.UnknownTookOver | src/daemon.rs:1691-1731 | The seat is unknown exactly when every answer ever was, or some stretch of nothing but unknown answers up to the latest spans the grace. |
| Seat.DefiniteHolds | src/daemon.rs:1691-1731 | Otherwise it is an earlier definite answer with only unknown ones after it. |
| Seat.UnknownNeverInjects | src/daemon.rs:1732-1775 | An unknown latest answer, short or long, never lets input in. |
| Seat.InjectsExactlyWhen | src/daemon.rs:1732-1816 | A peer injects exactly when sharing is on, it is trusted with both permissions, and the latest answer is an unlocked seat, or a restricted one with both pre-login switches. |
| Seat.HoldsExactlyWhen | src/daemon.rs:1732-1816 | It is held exactly when the latest answer is unknown and the definite one that still counts lets it. |
| Seat.AdmittedEffects | src/daemon.rs:1776-1797 | The loop delivers exactly the admitted effects in order, and says whether any input was refused. |
| Seat.DeliveredInOrder | src/daemon.rs:1776-1797 | What is delivered is a subsequence of what came, by positions given. |
| Seat.NothingIsAdded | src/daemon.rs:1776-1891 | Under Hold or Refuse, replaying what is delivered holds no key, button or contact that was not held before. |
| Seat.HeldStillReleases | src/daemon.rs:1864-1875 | Under Hold every release goes through: each key and button the whole batch would leave up is up, and contacts once it clears them. |
| Seat.RefusedExceptSafety | src/daemon.rs:1873-1891 | Under Refuse exactly the releases made here, with no contacts in them, go through. |
| Seat.InjectDeliversAll | src/daemon.rs:1776-1797 | Under Inject everything is delivered. |
| Neighbors.Table.OwnRecord | src/neighbors.rs:212-219 | Its own record leaves the table and the table's limits hold. |
| Neighbors.Table.InstanceSeen | src/neighbors.rs:221-254 | A record is kept, renewed with its key, ignored if it is this computer's, or turned away exactly when new and the table is full. |
| Neighbors.Table.InstanceGone | src/neighbors.rs:256-264 | The record goes and only its computer's last sighting changes. |
| Neighbors.Table.AddAddress | src/neighbors.rs:266-284 | The address goes last, past the limit the oldest goes with its record, and the limits hold. |
| Neighbors.InstancesBounded | src/neighbors.rs:221-284 | There are never more records than MAX_INSTANCES plus MAX_ADDED. |
| Neighbors.TablesAreBounded | src/neighbors.rs:212-284 | In every reachable state at most 32 neighbors, 8 added addresses and 72 records, and neither the own key nor the own record. |
| Neighbors.AddedFits | src/neighbors.rs:266-284 | Adding an address never makes room at the cost of a discovered record, nor adds to their number. |
| Neighbors.PutLast | src/neighbors.rs:266-273 | A new address goes last and past the limit the first one goes; one there already moves to the end and nothing goes. |
| Neighbors.Table.Expire | src/neighbors.rs:443-453 | Exactly the computers without a record and silent for NEIGHBOR_TTL go. |
| Neighbors.Table.Hello | src/neighbors.rs:363-417 | A key is recorded exactly when it is not this computer's and there is room after expiry; otherwise, unless it is its own, something was turned away; never more than MAX_NEIGHBORS. |
| Neighbors.Table.LookAround | src/neighbors.rs:507-559 | The strangers are exactly the untrusted neighbors, once each with their flags, beside the number of compatible records without a key and whether anything was turned away. |
| Neighbors.Describe | src/neighbors.rs:520-559 | The loop describes each untrusted key exactly once. |
| Neighbors.DuplicateExactlyWhen | src/neighbors.rs:540-548 | A stranger's name is a duplicate exactly when another stranger has it or a trusted one is saved under it. |
| Neighbors.StrangerSays | src/neighbors.rs:528-558 | A stranger has answered exactly when some record's hello proved its key, and is fresh exactly when a hello of it was recorded within FRESH_HELLO. |
| Neighbors.HeardIsPresent | src/neighbors.rs:363-453 | An untrusted key with a hello recorded within NEIGHBOR_TTL is among the strangers. |
| HelloLimit.HelloTable.AllowHello | src/neighbors.rs:341-358 | Never for this computer's own addresses, turned away exactly when a new address meets a full table, else allowed while its window has room; at most MAX_TRACKED_IPS are tracked. |
| HelloLimit.LoopbackExactly | src/neighbors.rs:344-348 | Loopback is 127.0.0.0/8 and ::1, also as an IPv4-mapped address. |
| HelloLimit.SameWindow | src/neighbors.rs:349-357 | One more hello inside a window keeps the count of admissions and the limit below. |
| HelloLimit.NewWindow | src/neighbors.rs:349-357 | So does one that starts a new window. |
| HelloLimit.AdmissionsAreLimited | src/neighbors.rs:341-358 | In every reachable state at most 64 addresses are tracked, and any was admitted at most 10 times, twice its share, in any half-open interval of 30 seconds. |
| PairingWindow.Window.Load | src/pairing_window.rs:95-120 | A restart: the phase and the file after it for every text, readable or not; one left open closes as restarted. |
| PairingWindow.Window.MarkEligible | src/pairing_window.rs:124-126 | Setup makes the file say eligible, unless the save fails, and changes nothing else. |
| PairingWindow.Window.Open | src/pairing_window.rs:132-153 | Eligible, it closes with trusted computers, stays shut when the file cannot say open, and else opens for OPEN_FOR, the first time in its life; otherwise nothing changes. |
| PairingWindow.Window.Placed | src/pairing_window.rs:156-160 | Afterwards a computer is trusted, and an eligible or open window is closed as accepted. |
| PairingWindow.Window.NotAdded | src/pairing_window.rs:164-168 | An open window closes as failed; any other stays as it is. |
| PairingWindow.Window.Tick | src/pairing_window.rs:183-216 | It answers exactly the stranger that has earned it over the whole life of the window so far, and OPEN_FOR or more after it opened it is not open and answers nobody. |
| PairingWindow.OpensAtMostOnce | src/pairing_window.rs:95-168 | Over any restarts, unreadable files and saves that fail with either text left, the window opens at most once. |
| PairingWindow.ClosedIsForGood | src/pairing_window.rs:132-216 | In any run without a restart a closed window stays closed, for the same reason. |
| PairingWindow.ClosedNeverReopens | src/pairing_window.rs:95-168 | Once closed, no restart, unreadable file or failed save opens the window again unless a trusted computer is forgotten. |
| PairingWindow.ReopensExactlyWhen | src/pairing_window.rs:95-168 | A closed window can open in some later run without forgetting exactly when its file still says eligible and no trusted computer is left. |
| PairingWindow.ClosedCanReopen | src/pairing_window.rs:156-160 | A run that gets there: a computer is placed, that cannot be saved, and the computer is forgotten. |
| PairingWindow.JoiningIsEarned | src/pairing_window.rs:183-216 | When a tick gives a stranger, the window opened less than OPEN_FOR before and is open since, the stranger was alone, identified, answered, heard lately and of its own name at every tick for at least HOLD_OFF, and no tick since the window opened saw two strangers or anything turned away. |
| PairingWindow.JoinsExactlyWhen | src/pairing_window.rs:183-216 | In every run whose ticks come in order, a tick answers a stranger exactly when it has earned it so. |
| PairingWindow.ExpiresInTime | src/pairing_window.rs:184-190 | In every run, a tick OPEN_FOR or more after the window opened closes it as expired if it is still open, and answers nobody. |
| PairingWindow.NobodyElseWasHeard | src/neighbors.rs:507-559 | Of the tables those ticks looked at: at each tick of the hold-off no other untrusted key had a hello recorded within NEIGHBOR_TTL, and at no tick since opening had two. |
| PairingWindow.LookingAroundShows | src/neighbors.rs:507-559 | What looking around answers names every untrusted key with a hello recorded within NEIGHBOR_TTL. |
| Trust.HexRoundTrip | src/config.rs:453-474 | Decoding what is encoded gives the bytes back, so no two keys are written alike. |
| Trust.LearnAddresses | src/config.rs:254-273 | At most MAX_PEER_ADDRESSES, one per IP, those heard just now first; it says whether anything changed. |
| Trust.EarlierComeFirst | src/config.rs:257-268 | Addresses heard just now keep their places whatever was saved. |
| Trust.LearnedKeepsAll | src/config.rs:257-273 | Below the limit no IP heard or saved is lost. |
| Trust.LearnedAgain | src/config.rs:257-273 | Learning the same addresses again changes nothing. |
| Trust.FreeName | src/hello.rs:117-142 | The search for a name ends, with the first candidate not taken: its own name, else that name marked with its key, else numbered. |
| Trust.Config.TrustPeer | src/hello.rs:117-142 | Refused exactly for bad key bytes, else the peer with that key learns the addresses or a new one gets a free name; nothing else changes, and a sound table stays sound. |
| Trust.SequenceKeepsSound | src/hello.rs:117-172 | Every sequence of trust_peer and replace_key calls, refused ones included, keeps a table sound: no key twice, each in the spelling from_spki writes, at most MAX_PEER_ADDRESSES addresses of distinct IPs. |
| Trust.TrustKeepsKeysUnique | src/hello.rs:117-142 | One call on any table: keys stay unique exactly when the key was not saved in another spelling. |
| Trust.TrustAgainChangesNothing | src/hello.rs:117-142 | Trusting the same key and addresses again gives the same name and the same table. |
| Trust.Config.ReplaceKey | src/hello.rs:147-172 | Succeeds exactly for good key bytes, a known name and a key nobody else has; only that peer changes, and a sound table stays sound. |
| Trust.ReplaceKeepsKeysUnique | src/hello.rs:147-172 | One call on any table: keys stay unique exactly when nobody else has the key in another spelling. |
| Trust.NewKeyForgets | src/hello.rs:164-171 | A new key loses pre-login input and every address the old one had, a repeated one keeps its permissions, and all other settings stay. |
| Trust.NewPeerMayNotPrelogin | src/hello.rs:174-182 | A computer trusted for the first time may control and be controlled, but not before login. |
| Trust.CapitalsAreTrustedTwice | src/hello.rs:117-142 | A key saved in capitals is trusted a second time. |
| Metrics.SessionMetrics.BeginActivation | src/metrics.rs:171-175 | Sequences start over; losses so far stay. |
| Metrics.SessionMetrics.ObserveMotionSequence | src/metrics.rs:188-217 | Loss since the activation began is the highest sequence less the distinct ones accepted, and at most that where the sum would pass the u64 maximum; the recent set is those still in the window, and the late decrement does not saturate while the counter is exact. |
| Metrics.AcceptedBounds | src/metrics.rs:188-217 | What is accepted was received and is at most the highest, which is accepted itself. |
| Metrics.RecentExactly | src/metrics.rs:200-208 | The window is the last 4096 sequences up to the highest. |
| Metrics.GapsAreUncounted | src/metrics.rs:188-217 | The loss counts exactly the sequences up to the highest that were not accepted. |
| Metrics.InTimeIsAccepted | src/metrics.rs:204-216 | A sequence that arrives inside the window is accepted, whatever the order. |
| Metrics.FullSetLosesNothing | src/metrics.rs:188-217 | 1 to n in any order and with any repeats inside the window leaves no gap. |
| Metrics.InTimeLosesNothing | src/metrics.rs:188-217 | Then the loss counter is where it started, or lower if it ever reached its maximum. |
| Capture.MergeTransitions | src/session.rs:638-676 | Replaying what is emitted takes the union of what all devices hold from before to after; each emission changes it, and only this device's own set changes. |
| Capture.CaptureMerger.Merge | src/session.rs:638-676 | Keeps the whole history consistent: every device's set and everything emitted. |
| Capture.CaptureMerger.Clear | src/session.rs:678-681 | Starts over with nothing held. |
| Capture.EmittedIsUnion | src/session.rs:629-682 | After any frames from any devices, replaying the output holds a member exactly when some device does. |
| Capture.StrictAlternates | src/session.rs:672-674 | Each member's output alternates, starting with a press. |
| Capture.HeldByParity | src/session.rs:672-674 | A member is held exactly after an odd number of its emissions. |
| EdgeGeometry.Outermost | packaging/gnome-extension/shell.js:38-45 | The desktop's side is one of the monitors' and none lies further out. |
| EdgeGeometry.CoveredExactly | packaging/gnome-extension/shell.js:37-53 | The segments hold exactly the pixels that lie wholly in the range with a monitor behind them on the desktop's outer edge. |
| EdgeGeometry.EntryIsNearest | packaging/gnome-extension/shell.js:500-514 | The entry lies on a chosen monitor a few pixels inside the edge, and no covered pixel is nearer to the pixel that the crossing's fraction of the edge falls on; no entry exactly when no pixel is covered, apart from monitors too small. |
| EdgeGeometry.PushIsNearest | packaging/gnome-extension/shell.js:551-555 | A push anywhere on a barrier reports the position nearest to the exact one, never a clamped one. |
| EdgeGeometry.CornersAreLeftExactlyWhen | packaging/gnome-extension/shell.js:176-181 | Outbound barriers leave the corners free exactly when no segment begins or ends strictly inside one. |
| EdgeGeometry.CornerCanBeCut | packaging/gnome-extension/shell.js:176-181 | A range that starts one pixel in leaves a barrier one pixel from the corner. |
| HandoffShell.Shell.PlaceEdges | packaging/gnome-extension/shell.js:162-221 | Own barriers for every edge whose monitor is there, and none with a lease. |
| HandoffShell.Shell.Clear | packaging/gnome-extension/shell.js:151-160 | Every waiting poll hears that the handoff ended, the exit barriers go, and own edges come back. |
| HandoffShell.Shell.SetEdges | packaging/gnome-extension/shell.js:418-434 | Valid edges and pause are taken over and, when either differs, the barriers placed anew; the lease is not touched. |
| HandoffShell.Shell.Timer | packaging/gnome-extension/shell.js:113-117 | A lease not renewed for two seconds ends; any other is as before. |
| HandoffShell.Shell.ChangeMonitors | packaging/gnome-extension/shell.js:118-121 | The lease ends and all barriers come down; the edges stay known. |
| HandoffShell.Shell.Disable | packaging/gnome-extension/shell.js:125-135 | The lease ends, all barriers come down and the edges are forgotten. |
| HandoffShell.Shell.Prepare | packaging/gnome-extension/shell.js:490-527 | A lease it takes has the request's token and starts with no barrier up at all. |
| HandoffShell.Shell.Arrive | packaging/gnome-extension/shell.js:531-572 | Exit barriers go up only for the lease that waited and once its pointer is in; a stale entry changes nothing. |
| HandoffShell.Shell.Push | packaging/gnome-extension/shell.js:551-558 | At most one exit is recorded, for the barrier pushed, and it becomes the lease's. |
| HandoffShell.Shell.Poll | packaging/gnome-extension/shell.js:449-488 | Refused exactly without the unexpired lease of that token; else the lease is renewed, and the poll is told at once exactly when an exit no poll heard of is pending, and that exit, or waits. |
| HandoffShell.Shell.HoldOver | packaging/gnome-extension/shell.js:481-485 | A poll that waits hears that the lease is active and waits no longer; for any other nothing changes. |
| HandoffShell.Shell.Finish | packaging/gnome-extension/shell.js:453-459 | No lease with that token is left. |
| HandoffProofs.BarriersFollowTheLease | packaging/gnome-extension/shell.js:151-221 | After every step of every run: own barriers only without a lease, exit barriers only with one and once the pointer is in, each for an exit of its Prepare, and every recorded position in that exit's range. |
| HandoffProofs.EntersAtTheNearest | packaging/gnome-extension/shell.js:490-527 | A Prepare that takes the lease sends the pointer to the covered pixel nearest to the one its fraction falls on, on a selected monitor, with no barrier up and the request's token and exits. |
| HandoffProofs.ExitsGoUp | packaging/gnome-extension/shell.js:541-562 | Once the pointer is within two pixels, every covered pixel of every exit whose monitor is there has a barrier that leads through that exit. |
| HandoffProofs.EntryGivesUp | packaging/gnome-extension/shell.js:564-571 | Until then it is looked for, and WARP_US after the request the lease ends. |
| HandoffProofs.OwnEdgesComeBack | packaging/gnome-extension/shell.js:151-221 | When a lease ends, every covered pixel outside the corners of each of this computer's own edges has a barrier again. |
| HandoffProofs.OwnBarriersLeaveCorners | packaging/gnome-extension/shell.js:176-182 | Own barriers stop eight pixels short of the corners where no segment begins or ends inside one. |
| HandoffProofs.LeaseIsTakenExactlyWhen | packaging/gnome-extension/shell.js:490-517 | A Prepare takes a free lease exactly when its ranges are sound, barriers exist, its monitor is there, some pixel of its range is covered and the monitor it would enter is not too small. |
| HandoffProofs.PollsAnsweredOnce | packaging/gnome-extension/shell.js:460-488 | In every run each poll is either waiting or was answered, exactly once. |
| HandoffProofs.ExitsReportedOnce | packaging/gnome-extension/shell.js:460-558 | With one poll out at a time, each lease's exits are reported once and in order; only the last can be missing, until the next poll or because the lease ended. |
| HandoffProofs.PushIsNoted | packaging/gnome-extension/shell.js:551-558 | The first push after an entry or a poll that took the last one back is noted, at the position its barrier gives it. |
| HandoffProofs.PushReportsToEveryPoll | packaging/gnome-extension/shell.js:551-558 | With more polls out, one exit is reported as often as polls wait. |
| HandoffProofs.PendingIsHeard | packaging/gnome-extension/shell.js:461-473 | Whatever happens meanwhile, short of the lease ending, the lease's next poll in time is answered with the pending exit. |
| HandoffProofs.PendingStays | packaging/gnome-extension/shell.js:467-473 | A pending exit stays the same until a poll comes or the lease ends, over any steps. |
| HandoffProofs.EveryRunKeeps | packaging/gnome-extension/shell.js:71-574 | The results on barriers, polls and exits together for every run; each method of Shell states them of the object. |

## Left out

- QUIC, TLS, mDNS, D-Bus, uinput and evdev: they appear only as steps that may happen or fail.
- The sender, receiver, playout, wire and input runtime modules: `Hop` takes from the runtime only the order of its events.
- `with_geometry` and the per-monitor tiles of src/desktop/monitors.rs: apart from the resize it calls for each monitor, they are not part of this model.
- Display metadata of a layout other than ids: it takes no part in the arrangement.
- `peer_name`: names reach the model as it shows them.
- Asking records for hellos (`keep_fresh`, `take_due_hellos`, `no_answer`) and the shelf of unplaced computers.
- Neighbors.Table.LookAround: the order of the strangers is open; the source goes by key, and the pairing window weighs one only when it is alone.
- Neighbors.Table.Hello: a neighbor's operating system, version, mark and how it was found are not kept.
- Gossip: forged editors, a lost state file, and a layout dropped because a session's send queue is full; a kept layout counts as saved at once.
- Packet delay and its percentiles in src/metrics.rs.
- HelloLimit.HelloTable.AllowHello: the u32 count of one window does not overflow.
- HandoffShell.Shell.Push: pushes against own outbound barriers, with the pause before they are reported, are not modelled.
- Floating point rounding in ReturnMapping and EdgeGeometry.
- Command line, settings, clipboard, indicator and update code.
