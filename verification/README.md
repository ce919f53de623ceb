# tryxctl protocols and state machines, verified

A Dafny 4.11 model of the parts of tryxctl that decide what goes over the wire, in what order, and
what happens when something is lost, late or malformed; with proofs of the properties those parts
are there for. `dafny verify dfyconfig.toml` checks all of it.

## What is modelled

| file | what it holds |
|---|---|
| `Bytes`, `Text` | byte strings, first occurrences, little-endian numbers; the string operations the codecs need |
| `KanaliFrame` | the TRYX frame codec on its mutable buffer, its resynchronisation, and a one-shot reference decoder |
| `KanaliTracks` | the 64-bit xorshift generator of track ids |
| `KanaliWire`, `KanaliSession` | messages, reply matching, and the request/reply exchange over a scripted byte pipe |
| `KanaliDisplay`, `KanaliServe` | the display's half: what a request changes and how it is answered; the display's end of the byte stream |
| `KanaliLink` | one exchange at message level, over a pipe that loses, delays and interleaves messages |
| `KanaliExchange` | an exchange over bytes is one a link knows |
| `KanaliUpload`, `KanaliApply` | uploads, and read-modify-write of the configuration, over such a pipe |
| `Calendar`, `Overlay` | civil dates from day numbers; the overlay layout and its metric batches |
| `LegacyFrame`, `LegacyPeer`, `LegacyText` | the byte-stuffed serial protocol, the second codec written against it, and the request text |
| `Mxhd` | the Turris media header: varints, tagged fields, and the access-unit count |
| `Daemon` | the daemon's timer-driven loop and every run of it |
| `MediaName`, `MediaReplace`, `MediaPlan` | device-safe names, replacing a file under interruption, and what is done with a source file |

Code that works on a mutable buffer or on fields is a method on a class or a `Buffer`, and is proved
against a specification function; what the program promises is then proved about that function.
Loops over a local variable are loops here too.

What lies outside is a parameter, and every statement holds for all its values: what each read and
write call yields, whether each look at the clock finds the deadline passed, the protobuf and UTF-8
codecs, the fate of each message (`KanaliLink.Fate`), of each step on the display's directory
(`MediaReplace.Fate`) and of each pass of the daemon (`Daemon.Turn`), and what ffprobe reports.

## Where the expected statement fails, and exactly when it holds

- Resynchronisation loses frames behind garbage exactly when some position of the garbage heads a
  header of an accepted size (`KanaliFrame.LosslessIff`). Garbage without the magic, and a frame cut
  inside its header, have none (`KanaliFrame.GarbageThenCutHeader`).
- The two legacy unstuffings differ on badly stuffed input; they agree exactly when no escape code
  follows an even, nonempty run of escape bytes (`LegacyPeer.UnstuffingsAgreeIff`).
- A legacy request is read back with its own content exactly when the version brings no blank line
  of its own (`LegacyText.RequestReadsBack`).
- Badge labels are not deduplicated; they are distinct exactly when each kind of badge is named at
  most once (`Overlay.BadgeLabelsDistinctIff`).
- A timeout moves the daemon's deadline strictly later exactly when it did not just open the link;
  after opening, the deadline is that very moment, and three timeouts in a row still span a second
  (`Daemon.TimeoutMovesDeadline`, `Daemon.ThreeTimeoutsSpanASecond`).
- Over a pipe that harms nothing, a change is applied exactly when it is valid and both
  configurations are present or supplied by the change (`KanaliApply.Device.Apply`).
- An upload is all or nothing over every pipe, late replies under the Turris's one transfer track
  included, if no transfer is in flight or its own beginning arrives
  (`KanaliUpload.UploadAllOrNothing`). Behind a transfer left in flight it is so over every pipe
  exactly when no way of keeping and losing chunks completes that one to other files than the old or
  the new (`KanaliUpload.AllOrNothingIff`). A retry on the same connection fails this: the display can
  be left with the first chunk twice under the file's own name (`KanaliUpload.RetryStoresMixture`).
- A success need not be true: every Turris upload can be reported a success with nothing stored
  (`KanaliUpload.TurrisUploadDeceived`). It is true exactly when every request of the script reaches
  the display (`KanaliUpload.UploadTrueIff`), as it does whenever no other frame poses as a reply
  (`KanaliUpload.UploadHonest`). Under generated tracks no late reply can, short of a full cycle of
  the generator (`KanaliLink.StaleRunIsHonest`).
- The peer finds a legacy request well formed exactly when the first length its header declares,
  lines the version brings coming first, is that of the body it reads (`LegacyText.PeerReadsRequest`,
  `LegacyText.DeclaredIff`).
- A file planned to be sent as it is meets the target exactly when it has a size
  (`MediaPlan.PlanTrueIff`). Without one it is sent as it is exactly when it meets the target in all
  else and no change was asked for (`MediaPlan.SizelessPassesThrough`); such a file is never
  acceptable, and for acceptable reports the plan is exactly right (`MediaPlan.PlanSound`).

## Model

| member | source | states |
|---|---|---|
| `KanaliFrame.Encode` | crates/tryx-proto/src/frame.rs:23-32 | a payload is framed exactly when it is at most 1 MiB, and then as its wire bytes |
| `KanaliFrame.CompleteIsWire` | crates/tryx-proto/src/frame.rs:23-60 | a stream begins with a whole accepted frame exactly when it is some payload's wire bytes and a rest, and those are unique |
| `KanaliFrame.TakeFrame` | crates/tryx-proto/src/frame.rs:37-60 | takes exactly the first frame off the buffer, waits without touching it, or clears it exactly when four or more bytes cannot become a frame, saying which way |
| `KanaliFrame.DiscardBytesBeforeFrameMagic` | crates/tryx-proto/src/frame.rs:65-80 | drops the shortest front after which the buffer agrees with the magic as far as both reach |
| `KanaliFrame.CompletePlausibleFrameIndex` | crates/tryx-proto/src/frame.rs:83-97 | finds the first position that heads a whole frame of an accepted size, or that there is none |
| `KanaliFrame.DiscardBytesBeforePlausibleFrame` | crates/tryx-proto/src/frame.rs:106-120 | drops the shortest front after which the buffer may still become a frame; taking a frame then never reports malformed input |
| `KanaliFrame.DiscardIsDecode` | crates/tryx-proto/src/frame.rs:106-120 | what the discard drops is what the reference decoder drops before its first frame |
| `KanaliFrame.DecodeCut` | crates/tryx-kanali/src/session.rs:158-187 | cutting a stream anywhere changes no payload, loss or leftover: decoding goes on from the leftover |
| `KanaliFrame.DecodeAnyCuts` | crates/tryx-kanali/src/session.rs:158-187 | every way of cutting a stream into reads decodes as the whole stream does |
| `KanaliFrame.DecodeAccounts` | crates/tryx-proto/src/frame.rs:37-120 | framed, dropped and leftover bytes add up to the bytes received, and the leftover holds nothing more to take or drop |
| `KanaliFrame.DecodeFrames` | crates/tryx-proto/src/frame.rs:23-60 | a stream of frames decodes to its payloads with nothing dropped or left |
| `KanaliFrame.ShortTailNotViable` | crates/tryx-proto/src/frame.rs:106-120 | fewer than eight stray bytes directly before a frame can never be taken for its header |
| `KanaliFrame.GarbageLosesNothing` | crates/tryx-proto/src/frame.rs:99-120 | behind garbage without a plausible header every frame is decoded, and exactly the garbage is dropped |
| `KanaliFrame.PlausibleHeaderLoses` | crates/tryx-proto/src/frame.rs:99-120 | garbage with a plausible header makes some list of frames behind it decode differently |
| `KanaliFrame.LosslessIff` | crates/tryx-proto/src/frame.rs:99-120 | garbage lets every list of frames behind it through exactly when it holds no plausible header |
| `KanaliFrame.GarbageThenCutHeader` | crates/tryx-proto/src/frame.rs:99-120 | garbage without the magic followed by a frame cut inside its header holds no plausible header |
| `KanaliTracks.XorShiftInjective` | crates/tryx-kanali/src/session.rs:134-143 | each of the three xor-shifts merges no two states |
| `KanaliTracks.StepInjective` | crates/tryx-kanali/src/session.rs:134-143 | the generator's step merges no two states |
| `KanaliTracks.MultiplyInjective` | crates/tryx-kanali/src/session.rs:134-143 | wrapping multiplication by the generator's constant merges no two 64-bit words |
| `KanaliTracks.NeverZero` | crates/tryx-kanali/src/session.rs:120-143 | from a nonzero seed no state is ever zero, and the replacement of id zero is never used |
| `KanaliTracks.SeedNotZero` | crates/tryx-kanali/src/session.rs:120-132 | setting the low bit makes any clock reading a nonzero seed |
| `KanaliTracks.StepWorkedOut` | crates/tryx-kanali/src/session.rs:134-143 | the step and the product of one state, worked out |
| `KanaliTracks.IdsAreStates` | crates/tryx-kanali/src/session.rs:120-143 | along any run two ids are equal exactly when the states are |
| `KanaliTracks.IdRepeatsOnlyOnFullCycle` | crates/tryx-kanali/src/session.rs:120-143 | an id comes again only after the generator has returned to its seed |
| `KanaliWire.SettleOkIff` | crates/tryx-kanali/src/session.rs:268-336 | a reply is accepted exactly when it answers the request and only unrelated frames within the bounds come before it |
| `KanaliWire.AcceptedReply` | crates/tryx-kanali/src/session.rs:298-331 | an accepted reply carries the request's track, the expected body and no error |
| `KanaliWire.WaitingIff` | crates/tryx-kanali/src/session.rs:268-336 | a request is still waiting exactly when all frames so far were unrelated and within the bounds |
| `KanaliWire.SettledStays` | crates/tryx-kanali/src/session.rs:268-336 | once settled, later frames change nothing |
| `KanaliWire.SettleByFields` | crates/tryx-kanali/src/session.rs:289-331 | an event, a pong nobody waits for and a message under another track leave the outcome to what follows, one frame and size + 8 bytes further on; any other frame decides at once, by its header, its error and its body in this order |
| `KanaliWire.SettleBounds` | crates/tryx-kanali/src/session.rs:268-271 | past 256 skipped frames or 4 MiB of them no frame is looked at |
| `KanaliWire.SettlesOnReply` | crates/tryx-kanali/src/session.rs:268-336 | a good reply behind such messages, within the bounds, is the outcome |
| `KanaliWire.MatchesOne` | crates/tryx-kanali/src/session.rs:42-83 | every body but an event answers exactly one kind of request |
| `KanaliWire.BootstrapAndTrackedApart` | crates/tryx-kanali/src/session.rs:457-463 | a frame a bootstrap query accepts is unrelated to every tracked request |
| `KanaliLink.BootstrapAnswered` | crates/tryx-kanali/src/session.rs:457-463 | the display's answers to the first queries are what a bootstrap accepts, and no reply under a track is |
| `KanaliSession.Session.NextTrack` | crates/tryx-kanali/src/session.rs:134-143 | advances the state by one step and returns that state's id |
| `KanaliSession.Session.WriteAll` | crates/tryx-kanali/src/session.rs:145-155 | writes all bytes through partial writes exactly when the script takes enough of them before it fails; otherwise a proper prefix is written |
| `KanaliSession.Session.ReadFrame` | crates/tryx-kanali/src/session.rs:158-187 | hands out the next payload the received bytes decode to, and leaves bytes, reads and clock as `KanaliSession.Fetch` says |
| `KanaliSession.Session.Drain` | crates/tryx-kanali/src/session.rs:190-207 | starts the stream anew with nothing pending, having used up the reads `KanaliSession.Drained` says |
| `KanaliSession.Session.AwaitReply` | crates/tryx-kanali/src/session.rs:268-336 | the outcome is the one the frames read settle on, none is read after they have, and it is the one `KanaliSession.Await` reaches from the reads and the clock to come |
| `KanaliSession.Session.Execute` | crates/tryx-kanali/src/session.rs:248-337 | sends one whole frame under a fresh or fixed track; the outcome is a transport error exactly when that frame cannot be written, else the one reached from what comes after the drain; a request too long is refused with nothing sent |
| `KanaliSession.FetchMeans` | crates/tryx-kanali/src/session.rs:158-187 | reading a frame receives exactly the bytes its reads bring, makes none once the frame is there, ends without one only once a look at the clock finds the deadline passed, and in a transport error exactly when its last read failed |
| `KanaliSession.AwaitTimely` | crates/tryx-kanali/src/session.rs:268-336 | while no read fails and time is left, the outcome is what the whole stream settles on, however it is cut and whatever timeouts come in between |
| `KanaliSession.AwaitLate` | crates/tryx-kanali/src/session.rs:268-277 | a deadline that has passed ends the wait, whatever is pending |
| `KanaliSession.ReplyComesThrough` | crates/tryx-kanali/src/session.rs:158-336 | so a reply behind events, stray pongs and frames under other tracks is returned under every cut into reads |
| `KanaliSession.DrainedIs` | crates/tryx-kanali/src/session.rs:190-207 | the drain uses up the reads that bring bytes until the moment is over or a read brings none, and no more |
| `KanaliSession.EnoughIsWritable` | crates/tryx-kanali/src/session.rs:145-155 | a script that takes as many bytes as there are, in any portions, lets them all be written |
| `KanaliSession.ReadBound` | crates/tryx-kanali/src/session.rs:268-336 | an exchange reads at most 257 frames and 4 MiB plus one frame of the largest size |
| `KanaliSession.OutcomeFromStream` | crates/tryx-kanali/src/session.rs:158-187 | a settled outcome is the one the whole received stream settles on, however the reads cut it |
| `KanaliDisplay.Display.Handle` | crates/tryx-testkit/src/kanali.rs:232-368 | the display's new state and its reply, for every request |
| `KanaliDisplay.ConfigurationLaw` | crates/tryx-testkit/src/kanali.rs:308-315 | a configuration written is the one reported until the next is written |
| `KanaliDisplay.CatalogLaw` | crates/tryx-testkit/src/kanali.rs:289-363 | a removed file is gone and every other stays; only a transfer that ends complete adds or changes one, by the bytes in flight |
| `KanaliDisplay.InflightLaw` | crates/tryx-testkit/src/kanali.rs:316-359 | only transfers touch what is in flight; each request is recorded, and each layout |
| `KanaliDisplay.ReplyLaw` | crates/tryx-testkit/src/kanali.rs:232-368 | which requests get no reply, which reply has no header, which carries track zero, and how a transfer's end is answered |
| `KanaliServe.ServedAnyCuts` | crates/tryx-testkit/src/kanali.rs:175-201 | however the stream is cut into reads, the display ends in the same state with the same replies |
| `KanaliServe.Server.TakeRequests` | crates/tryx-testkit/src/kanali.rs:182-193 | handles exactly the whole frames pending, in order, and says whether the connection goes on |
| `KanaliServe.Server.Serve` | crates/tryx-testkit/src/kanali.rs:175-201 | a connection leaves the display and the written bytes as serving all that was heard in one go does |
| `KanaliServe.HeardToTheEnd` | crates/tryx-testkit/src/kanali.rs:175-201 | a connection hears all that is brought, timeouts or not, up to the first empty read or failure and nothing after |
| `KanaliServe.FramesServed` | crates/tryx-testkit/src/kanali.rs:175-212 | a stream of framed requests has each handled once, in order, each answered, nothing left |
| `KanaliServe.BothWays` | crates/tryx-testkit/src/kanali.rs:175-212 | with both directions cut anywhere, the display handles exactly the requests framed and the host decodes exactly its replies, in order |
| `KanaliLink.HonestReply` | crates/tryx-kanali/src/session.rs:298-331 | an accepted reply has the expected body; it is the display's own to this request unless another frame carries the track and is neither event nor pong |
| `KanaliLink.HarmlessReply` | crates/tryx-kanali/src/session.rs:268-336 | behind at most 256 events, stray pongs and frames under other tracks, 4 MiB in all, a request gets its reply |
| `KanaliLink.LateReplySkipped` | crates/tryx-kanali/src/session.rs:312-316 | a late reply to an earlier generated track is unrelated, unless the generator came all the way round |
| `KanaliLink.StaleIsForOthers` | crates/tryx-kanali/src/session.rs:298-316 | events, pongs, untracked frames and replies to tracks issued earlier cannot pass for the reply under the next generated track, short of a full cycle |
| `KanaliLink.StaleRunIsHonest` | crates/tryx-kanali/src/session.rs:134-143 | so a pipe that brings only such frames is honest for every request of a run |
| `KanaliLink.ImpostorAccepted` | crates/tryx-kanali/src/session.rs:298-331 | a frame that carries the track and the expected body is accepted though the request never arrived |
| `KanaliLink.Link.Ask` | crates/tryx-kanali/src/session.rs:248-337 | the display changes exactly when the request reaches it, and the outcome is what the arrivals settle on |
| `KanaliLink.Link.WriteTrackedOnly` | crates/tryx-kanali/src/session.rs:233-245 | succeeds exactly when the write does; whether the request arrives is another matter |
| `KanaliExchange.FrameServed` | crates/tryx-testkit/src/kanali.rs:175-201 | of a request's frame the display handles all or, cut anywhere, nothing |
| `KanaliExchange.ExchangeHasFate` | crates/tryx-kanali/src/session.rs:248-337 | an exchange over bytes, whatever arrives of it on either side, is an exchange of a link under some fate: same effect on the display, same outcome, honest exactly when no other frame poses as the reply |
| `KanaliUpload.ChunksMakeTheFile` | crates/tryx-kanali/src/lib.rs:462-540 | the chunks concatenate to the file; each is nonempty and at most 256 KiB |
| `KanaliUpload.Uploader.Exchange` | crates/tryx-kanali/src/lib.rs:494-533 | one transfer request and the check of its status are the step the lemmas speak of |
| `KanaliUpload.Uploader.SendRest` | crates/tryx-kanali/src/lib.rs:506-539 | the loop over chunks, and the end, are the run of the remaining requests; an unreadable chunk ends it with an I/O error |
| `KanaliUpload.Uploader.Upload` | crates/tryx-kanali/src/lib.rs:462-540 | result, display, every state in between, and what is left of the pipe are those of the run the lemmas speak of |
| `KanaliUpload.UploadRefusedIff` | crates/tryx-kanali/src/lib.rs:462-483 | an upload is refused, with nothing sent, exactly when the name is not one to 128 plain characters without a leading dot and with the product's ending, or the file is empty or over 500 MiB |
| `KanaliUpload.BegunChunk` | crates/tryx-testkit/src/kanali.rs:336-344 | a chunk, arrived or lost, leaves in flight as many bytes as were sent only if they are the file's first |
| `KanaliUpload.BegunEnd` | crates/tryx-testkit/src/kanali.rs:345-359 | an end stores the whole file or leaves the files alone |
| `KanaliUpload.UploadAllOrNothing` | crates/tryx-kanali/src/lib.rs:462-540 | over every pipe, in every state on the way the files are as before or with the whole new file, if no transfer was in flight, the new beginning arrives, or it meets no impostor |
| `KanaliUpload.AllOrNothingIff` | crates/tryx-kanali/src/lib.rs:462-540 | over all pipes, with anything in flight at the start, all-or-nothing holds exactly when no way of keeping and losing chunks completes the transfer in flight to files that are neither the old nor the new |
| `KanaliUpload.LeftoverStored` | crates/tryx-testkit/src/kanali.rs:324-359 | whatever bytes the transfer in flight may come to hold, in the number it declared, some pipe has them stored under its name and the upload report success |
| `KanaliUpload.RetryStoresMixture` | crates/tryx-testkit/src/kanali.rs:324-359 | a retry behind its own first chunk can leave that chunk twice under the requested name and report success |
| `KanaliUpload.UploadTrueIff` | crates/tryx-kanali/src/lib.rs:462-540 | on a display that takes files, has none in flight and lacks this one, a reported success is true exactly when each request of the script reaches it; otherwise nothing was stored |
| `KanaliUpload.UploadHonest` | crates/tryx-kanali/src/lib.rs:462-540 | over a pipe that brings no impostor the requests arrive in order without gaps, and success means the file is there byte for byte |
| `KanaliUpload.UploadAmongStaleFrames` | crates/tryx-kanali/src/lib.rs:462-540 | under generated tracks success is true among any late replies, events and untracked frames |
| `KanaliUpload.UploadHarmless` | crates/tryx-kanali/src/lib.rs:462-540 | when nothing is lost an upload ends with the display's own status, and with the file stored if that is zero |
| `KanaliUpload.TurrisUploadDeceived` | crates/tryx-kanali/src/lib.rs:484-540 | every Turris upload can be reported a success with nothing arrived, by one late status per request |
| `KanaliApply.EditedShows` | crates/tryx-kanali/src/lib.rs:290-377 | a valid change shows in the state read back, which exists exactly when both configurations are present or supplied |
| `KanaliApply.StateShows` | crates/tryx-kanali/src/lib.rs:583-631 | which state a configuration shows, field by field |
| `KanaliApply.EditedKeeps` | crates/tryx-kanali/src/lib.rs:290-337 | every field the change does not cover keeps its value |
| `KanaliApply.EditedTwice` | crates/tryx-kanali/src/lib.rs:290-337 | making a valid change twice is making it once |
| `KanaliApply.ValidIff` | crates/tryx-kanali/src/lib.rs:270-304 | a change that asks for something is refused exactly when no configuration the display can hold satisfies it |
| `KanaliApply.ShowsIff` | crates/tryx-kanali/src/lib.rs:347-377 | the readback is accepted exactly when making the change to what was read would change nothing of the media, mode, brightness and waterfall shown |
| `KanaliApply.Device.Apply` | crates/tryx-kanali/src/lib.rs:261-379 | over every pipe the requests sent are the first of query, write, layout and query, and a layout only after the write was acknowledged; the configuration is at each step the old one or the valid change made to the one that was read; over an honest pipe that is the display's own, and success means the change is in place and was read back; over a harmless one it succeeds exactly for valid changes with both configurations present or supplied, and then all four requests and the overlay's layout arrived |
| `KanaliApply.Device.Edit` | crates/tryx-kanali/src/lib.rs:291-337 | the step-by-step edit is the edit the lemmas speak of |
| `Calendar.CivilFollowsTheCalendar` | crates/tryx-kanali/src/overlay.rs:303-314 | every day number gives a valid proleptic Gregorian date, and the next number the next date |
| `Calendar.DaysRoundTrip` | crates/tryx-kanali/src/overlay.rs:303-314 | counting days year by year and month by month from 1970 undoes the conversion |
| `Calendar.DateRoundTrip` | crates/tryx-kanali/src/overlay.rs:303-314 | the conversion undoes the count, so the two are a bijection |
| `Overlay.Selected` | crates/tryx-kanali/src/overlay.rs:172-186 | the loop chooses the metrics the lemmas speak of |
| `Overlay.ChosenMeaning` | crates/tryx-kanali/src/overlay.rs:172-186 | at most three metrics are chosen, all known and named, no two alike; a known name is left out only when three are chosen |
| `Overlay.CatalogIds` | crates/tryx-kanali/src/overlay.rs:51-162 | the catalog's group and label ids run without gaps, so each id belongs to one metric |
| `Overlay.PlaceMetric` | crates/tryx-kanali/src/overlay.rs:316-463 | the position worked out step by step, in plain, dual and waterfall layouts, is the closed form the lemmas speak of |
| `Overlay.AppendArea` | crates/tryx-kanali/src/overlay.rs:316-463 | appends an area's groups, in order, to whatever was there |
| `Overlay.BuildRunConfig` | crates/tryx-kanali/src/overlay.rs:466-473 | the layout is the left area's groups and, if dual, the right area's |
| `Overlay.MetricGroupsApart` | crates/tryx-kanali/src/overlay.rs:316-463 | two metric groups of one layout share no id, no label and no pixel |
| `Overlay.LayoutSound` | crates/tryx-kanali/src/overlay.rs:316-473 | in every layout groups lie inside the canvas and have distinct ids, and metric groups overlap nowhere and repeat no label |
| `Overlay.BadgeLabelsDistinctIff` | crates/tryx-kanali/src/overlay.rs:316-463 | badge labels are distinct exactly when each kind is named at most once |
| `Overlay.LayoutReads` | crates/tryx-kanali/src/overlay.rs:316-463 | a metric's labels read title, placeholder and unit, or date and time, in the area's colour |
| `Overlay.MetricPlacedAt` | crates/tryx-kanali/src/overlay.rs:316-405 | where a metric stands, in pixels, for one to three rows in one column, two, or a waterfall |
| `Overlay.BadgesPlacedAt` | crates/tryx-kanali/src/overlay.rs:408-462 | where the badges stand |
| `Overlay.Aligned` | crates/tryx-kanali/src/overlay.rs:188-197 | text is aligned as its area says, in any case of letters, and else to the left |
| `Overlay.BadgesRead` | crates/tryx-kanali/src/overlay.rs:316-463 | badges are labelled in the order named, with the text configured or the plain name, all but the first set apart |
| `Overlay.BadgeNames` | crates/tryx-kanali/src/overlay.rs:436-460 | which names a badge goes by; none is both |
| `Overlay.MetricBatch` | crates/tryx-kanali/src/overlay.rs:486-520 | the batch holds the updates of both areas in order, and there is none when nothing applies |
| `Overlay.BatchMatchesLayout` | crates/tryx-kanali/src/overlay.rs:475-520 | every update names a group and a label that the layout for the same overlay declared |
| `Overlay.ChosenValueIsUpdated` | crates/tryx-kanali/src/overlay.rs:486-520 | a chosen metric with a value to show is always updated with it |
| `Overlay.DateTimeUpdatesAgree` | crates/tryx-kanali/src/overlay.rs:486-520 | an update of date or time brings its label to what a layout made at that moment reads |
| `Overlay.ValueUpdatesMean` | crates/tryx-kanali/src/overlay.rs:486-520 | a value goes to its value label, and the two temperatures bring their unit along, their own if none is given |
| `Overlay.FoundFirst` | crates/tryx-kanali/src/overlay.rs:486-520 | the value shown is the first one under the name that is not empty |
| `LegacyFrame.Escape` | crates/tryx-legacy/src/frame.rs:31-43 | the loop stuffs exactly the two marker bytes |
| `LegacyFrame.Unescape` | crates/tryx-legacy/src/frame.rs:45-68 | the loop undoes the two escape codes and keeps anything else |
| `LegacyFrame.StuffingRoundTrip` | crates/tryx-legacy/src/frame.rs:31-68 | unstuffing undoes stuffing; stuffed data holds no marker and is at most twice as long |
| `LegacyFrame.Wrap` | crates/tryx-legacy/src/frame.rs:87-100 | frames a text exactly when its length fits 16 bits |
| `LegacyFrame.FramedOpens` | crates/tryx-legacy/src/frame.rs:87-150 | a framed text is read back with length and checksum good |
| `LegacyFrame.OpenedIff` | crates/tryx-legacy/src/frame.rs:122-155 | a frame opens exactly when it has markers at both ends and three bytes or more between them, unstuffed |
| `LegacyFrame.InspectMeans` | crates/tryx-legacy/src/frame.rs:122-155 | what its text is, and when checksum and length are good, in numbers |
| `LegacyFrame.OneByteChangeDetected` | crates/tryx-legacy/src/frame.rs:27-29 | changing any one byte of the length or the text makes the checksum fail |
| `LegacyFrame.TakeFrame` | crates/tryx-legacy/src/frame.rs:160-170 | takes the first delimited run off the buffer with what precedes it, or leaves the buffer alone |
| `LegacyFrame.TakeAll` | crates/tryx-testkit/src/cm01.rs:216-222 | taking frames until none is whole reassembles the buffer |
| `LegacyFrame.ReassembleAnyCuts` | crates/tryx-legacy/src/frame.rs:160-170 | every way of cutting a stream reassembles it as the whole |
| `LegacyFrame.ReassembleFrames` | crates/tryx-legacy/src/frame.rs:160-170 | marker-free noise and then any frames reassemble to exactly those frames with an empty buffer |
| `LegacyFrame.FramedIsFrame` | crates/tryx-legacy/src/frame.rs:87-100 | every wrapped text is a frame reassembly can find: markers at its ends and none between |
| `LegacyFrame.NoiseHarmlessIff` | crates/tryx-legacy/src/frame.rs:160-170 | under any cut the frames come through exactly when the noise before them holds no marker |
| `LegacyPeer.Encode` | crates/tryx-testkit/src/cm01.rs:268-283 | the second codec puts the same bytes on the wire |
| `LegacyPeer.Unpair` | crates/tryx-testkit/src/cm01.rs:291-304 | the second unstuffing, byte by byte from an iterator, takes escape bytes in pairs |
| `LegacyPeer.TakeContents` | crates/tryx-testkit/src/cm01.rs:287-306 | takes the same first frame as the other codec and unstuffs it |
| `LegacyPeer.UnstuffingsAgreeIff` | crates/tryx-testkit/src/cm01.rs:291-304 | the two unstuffings agree exactly when no escape code follows an even, nonempty run of escape bytes |
| `LegacyPeer.ShortestDisagreement` | crates/tryx-testkit/src/cm01.rs:291-304 | they differ on `5B 5B 01` and on nothing shorter |
| `LegacyPeer.UnpairedRoundTrip` | crates/tryx-testkit/src/cm01.rs:268-306 | the second unstuffing undoes stuffing too |
| `LegacyPeer.CodecsReadEachOther` | crates/tryx-testkit/src/cm01.rs:268-316 | whatever one codec frames, the other reads back whole with length and checksum good |
| `LegacyText.BuildFrame` | crates/tryx-legacy/src/frame.rs:71-84 | frames the request text, or refuses it with its length |
| `LegacyText.HeaderSays` | crates/tryx-legacy/src/frame.rs:71-84 | with a version on one line the header is a status line and three fields, which give the content's length and the number to acknowledge |
| `LegacyText.RequestReadsBack` | crates/tryx-legacy/src/frame.rs:71-155 | a built request parses with its own method and command, good length and checksum; its body is the content exactly when the version holds no blank line |
| `LegacyText.ResponseReads` | crates/tryx-legacy/src/frame.rs:122-155 | a reply's version and status are the first two words of its first line and of no other |
| `LegacyText.PeerReadsRequest` | crates/tryx-testkit/src/cm01.rs:308-335 | for every version the peer reads the same method and command; the body is all that follows the first blank line, the content exactly when the version brings none; and the request is well formed exactly when the first length declared is that body's |
| `LegacyText.DeclaredIff` | crates/tryx-testkit/src/cm01.rs:324-333 | without such a blank line that holds exactly when the version declares no length or the right one |
| `LegacyText.PlainVersion` | crates/tryx-testkit/src/cm01.rs:319-326 | a version on one line brings neither |
| `LegacyText.UsizeReads` | crates/tryx-testkit/src/cm01.rs:324-333 | a declared length is read from its digits exactly when it fits 64 bits; no digits are no length |
| `LegacyText.FieldFoundFirst` | crates/tryx-testkit/src/cm01.rs:324-326 | a field is what follows its name in the first line that begins with it |
| `LegacyText.ResponseWithoutHeader` | crates/tryx-legacy/src/frame.rs:122-155 | a reply without a blank line is kept as raw text, with what its checksum and length say |
| `Mxhd.PushVarint` | crates/tryx-media/src/mxhd.rs:30-36 | appends the base-128 digits of the value |
| `Mxhd.ReadVarint` | crates/tryx-media/src/mxhd.rs:112-127 | the loop reads the varint at a position; what it returns fits 64 bits and lies further on |
| `Mxhd.VarintRoundTrip` | crates/tryx-media/src/mxhd.rs:30-127 | reading undoes writing for every 64-bit value, whatever surrounds it |
| `Mxhd.ParseFields` | crates/tryx-media/src/mxhd.rs:130-171 | the field loop ends on all input, and gathers what the recursive parser does |
| `Mxhd.ParseUndoesFields` | crates/tryx-media/src/mxhd.rs:38-171 | parsing the bytes of any list of fields adds up those fields |
| `Mxhd.BuildPrefix` | crates/tryx-media/src/mxhd.rs:50-63 | pushing field after field builds the length-prefixed header |
| `Mxhd.ImageHeaderBytes` | crates/tryx-media/src/mxhd.rs:50-63 | the header of an image of one frame, byte for byte |
| `Mxhd.HeaderRoundTrip` | crates/tryx-media/src/mxhd.rs:50-171 | reading a header undoes writing it for every kind, frame count and stream behind it |
| `Mxhd.ReadHeaderOf` | crates/tryx-media/src/mxhd.rs:130-171 | a blob headed by any list of fields reads as their sum exactly when its magic number is right |
| `Mxhd.FoldMeans` | crates/tryx-media/src/mxhd.rs:130-171 | an unknown kind is refused, a later field wins, and fields of other numbers are passed over |
| `Mxhd.CutHeaderRefused` | crates/tryx-media/src/mxhd.rs:130-171 | a blob shorter than the header it announces is refused |
| `Mxhd.CountAccessUnits` | crates/tryx-media/src/mxhd.rs:67-81 | the scan that skips by three counts exactly the positions holding a delimiter |
| `Mxhd.CountConcat` | crates/tryx-media/src/mxhd.rs:67-81 | the count of a concatenation is the parts' counts plus the delimiters that span the seam |
| `Mxhd.ZeroesKeepSeam` | crates/tryx-media/src/mxhd.rs:67-81 | none spans a seam whose second part begins with two zero bytes |
| `Mxhd.CountUnits` | crates/tryx-media/src/mxhd.rs:67-81 | n units with one delimiter each count as n frames |
| `Mxhd.Wrap` | crates/tryx-media/src/mxhd.rs:84-108 | succeeds exactly for streams with frames, one for an image; the blob's header reads back with the stream's own count |
| `Daemon.PassKeepsLink` | crates/tryxctl/src/daemon.rs:149-262 | after every pass a link is owned exactly when connected, a missing one has an error on record, and an owned one has fewer than three failed pushes in a row |
| `Daemon.PassKeepsCounts` | crates/tryxctl/src/daemon.rs:149-262 | opens minus drops stays one when connected and zero otherwise |
| `Daemon.LinkDroppedIff` | crates/tryxctl/src/daemon.rs:149-245 | an open link is dropped exactly when a request or a due keepalive reports it gone, or a push that was tried does or is the third to fail in a row; dropping it disconnects, is counted, and puts the next look one interval off |
| `Daemon.RequestPass` | crates/tryxctl/src/daemon.rs:149-185 | all a request does, whether it finds the link there or gone |
| `Daemon.AbsentPass` | crates/tryxctl/src/daemon.rs:186-211 | a display found is connected with its timers due at once; one not found is looked for again an interval later |
| `Daemon.TimeoutErrors` | crates/tryxctl/src/daemon.rs:186-241 | which error is on record after a timeout: the push's word is last |
| `Daemon.StartMeans` | crates/tryxctl/src/daemon.rs:113-148 | how the loop begins, with or without a display |
| `Daemon.TimeoutDoesDueWork` | crates/tryxctl/src/daemon.rs:186-241 | a timeout gives the keepalive and the push that are due, and does not push to a link the keepalive found dead |
| `Daemon.TimeoutMovesDeadline` | crates/tryxctl/src/daemon.rs:149-245 | a timeout moves the deadline strictly later exactly when it did not just open the link |
| `Daemon.ThreeTimeoutsSpanASecond` | crates/tryxctl/src/daemon.rs:149-245 | so the loop never spins: the deadline after the second of two timeouts is a second past the first |
| `Daemon.KeepaliveGap` | crates/tryxctl/src/daemon.rs:212-222 | without requests, keepalives are at most two seconds and one pass's work apart |
| `Daemon.KeepalivesInEveryRun` | crates/tryxctl/src/daemon.rs:149-245 | in every run, keepalives with no request between them keep that bound |
| `Daemon.RequestsLeaveKeepalive` | crates/tryxctl/src/daemon.rs:177-185 | a request neither gives a keepalive nor puts one off |
| `Daemon.PushInterval` | crates/tryxctl/src/daemon.rs:86-93 | after a push the next is put off by the seconds set, but by at least one, and on KANALI by at most two |
| `Daemon.Serve` | crates/tryxctl/src/daemon.rs:212-240 | the timers of an open link are served as specified |
| `Daemon.Pass` | crates/tryxctl/src/daemon.rs:149-245 | one pass is the step the lemmas speak of |
| `Daemon.Run` | crates/tryxctl/src/daemon.rs:95-248 | whatever happens, the loop's state after any number of passes keeps all the facts |
| `Daemon.EveryRunSound` | crates/tryxctl/src/daemon.rs:95-248 | every state any run reaches keeps the facts |
| `MediaName.SanitizeStem` | crates/tryx-media/src/check.rs:646-666 | the loop with its last-dash flag computes the sanitised stem |
| `MediaName.SanitizedClean` | crates/tryx-media/src/check.rs:646-666 | a sanitised stem is nonempty, at most 100 safe characters, without leading or trailing dash or dot or two dashes together |
| `MediaName.SanitizedIff` | crates/tryx-media/src/check.rs:646-666 | a stem is left alone exactly when it is such a one already; sanitising is idempotent |
| `MediaName.DashedIsPicked` | crates/tryx-media/src/check.rs:646-666 | the loop keeps the safe characters, and puts one dash for each run of others that follows one |
| `MediaName.SanitizedMeans` | crates/tryx-media/src/check.rs:646-666 | a sanitised stem is the first hundred of those without dashes and dots at the ends; "media" stands in only for an empty one |
| `MediaName.RequestedEitherWay` | crates/tryx-media/src/check.rs:604-640 | a name may be asked for with its extension or without |
| `MediaName.RequestedIsGiven` | crates/tryx-media/src/check.rs:604-640 | a clean name asked for is the one given, under the extension of what will be sent |
| `MediaName.DerivedNamesSafe` | crates/tryx-media/src/check.rs:604-640 | a derived name, and the temporary name a replacement gives it, are always accepted by the display |
| `MediaReplace.Adb.Push` | crates/tryx-legacy/src/adb.rs:171-177 | however far a push gets, only the file it writes changes, and that holds a prefix |
| `MediaReplace.Adb.Rename` | crates/tryx-legacy/src/adb.rs:193-206 | a rename happens whole or not at all, and is reported only if it happened |
| `MediaReplace.Adb.Replace` | crates/tryxctl/src/media.rs:1149-1186 | at every step the file under the name is the complete old one or the complete new one, and no other file but the temporary changes; success means the new file is in place, and comes exactly when every step goes through |
| `MediaReplace.WholeMeans` | crates/tryxctl/src/media.rs:1164-1186 | what that says of the file, and of every other file |
| `MediaReplace.RenamedWhole` | crates/tryxctl/src/media.rs:1184-1185 | renaming the checked temporary puts the new file in place of the old |
| `MediaPlan.CheckPixels` | crates/tryx-media/src/check.rs:477-526 | asks for a re-encode exactly when the pixels do not fit, refuses exactly unconverted HDR, and leaves transparency and converted HDR to the user |
| `MediaPlan.AlphaFormats` | crates/tryx-media/src/check.rs:484-486 | which common pixel formats count as transparent |
| `MediaPlan.CheckGeometry` | crates/tryx-media/src/check.rs:528-602 | asks for a re-encode exactly when the picture is not stored upright in the target's size, refuses exactly a missing size, and leaves to the user exactly another shape than the target's |
| `MediaPlan.ShapeMatches` | crates/tryx-media/src/check.rs:570-602 | a shape is the target's when width times height crosswise differ by one part in a hundred at most |
| `MediaPlan.CheckVideo` | crates/tryx-media/src/check.rs:345-446 | a video asks for a re-encode or a rewrap, or is refused, exactly for its codec, pixels, geometry, rate, B-frames, wrapper, HDR or size |
| `MediaPlan.CheckImage` | crates/tryx-media/src/check.rs:448-475 | a still asks for a conversion, or is refused, exactly for its codec, pixels, geometry, HDR or size |
| `MediaPlan.CheckTrim` | crates/tryx-media/src/check.rs:257-291 | a trim applies to videos it lies within, turns a rewrap into a re-encode, and is refused otherwise |
| `MediaPlan.TrimFits` | crates/tryx-media/src/check.rs:257-291 | which trims a length allows |
| `MediaPlan.Check` | crates/tryx-media/src/check.rs:199-324 | says exactly when a report asks for a re-encode, a rewrap or refuses the file, which decisions it leaves to the user, and, with nothing asked for, when all it finds is fine |
| `MediaPlan.MeasureMeans` | crates/tryx-media/src/check.rs:326-343 | the width displayed is the stored one, or the height of a quarter turn, times the sample aspect to within half a pixel; the duration is the container's, else the stream's |
| `MediaPlan.DistortedIsEncoded` | crates/tryx-media/src/check.rs:528-602 | a stream stored turned, or whose pixels are off square by more than half a pixel's width in all, is always encoded anew |
| `MediaPlan.VideoIsFirst` | crates/tryx-media/src/probe.rs:212-217 | the stream looked at is the first video stream that is no attached picture |
| `MediaPlan.ClassifyMeans` | crates/tryx-media/src/check.rs:178-197 | which files are videos, stills and animations |
| `MediaPlan.WorstMeans` | crates/tryx-media/src/check.rs:157-163 | the worst severity is fatal exactly when a finding is, and fine exactly when all are |
| `MediaPlan.PlanSound` | crates/tryx-media/src/plan.rs:50-375 | an acceptable report always has a plan; it sends as is exactly the files that meet the target in every respect with nothing asked for, and rewraps exactly those whose stream does |
| `MediaPlan.SentAsIsIff` | crates/tryx-media/src/check.rs:199-602 | from the probe to the plan: an MP4 display's file with nothing asked for is accepted and sent as it is exactly when the probe's own fields say it is a silent MP4 the display plays at its size and rate |
| `MediaPlan.PlanKeeps` | crates/tryx-media/src/plan.rs:50-375 | a plan keeps kind and name, and lasts as long as the source or the part kept of it |
| `MediaPlan.StrictIff` | crates/tryx-media/src/check.rs:165-174 | with nothing asked for, strict acceptance is acceptance, a passthrough plan and an unchanged name |
| `MediaPlan.PlanTrueIff` | crates/tryx-media/src/check.rs:554-560 | for every report, a file planned to be sent as it is, or its stream when it is only rewrapped, meets the target exactly when it has a size |
| `MediaPlan.SizelessPassesThrough` | crates/tryx-media/src/check.rs:554-560 | without dimensions a source is never acceptable, and is planned to be sent as it is exactly when it meets the target in all else and no change was asked for |
| `MediaPlan.CheckSizeless` | crates/tryx-media/src/check.rs:199-324 | a PNG whose probe gives no dimensions, put through the check, is not acceptable and planned to be sent as it is |

## Left out

- USB, serial and socket input and output, ffmpeg, ffprobe, adb and process spawning: only their outcomes appear, as parameters.
- Protobuf and UTF-8: parameters. A request over 1 MiB is refused in `KanaliSession.Session.Execute`; at message level (`KanaliLink`) every request fits a frame.
- KanaliDisplay.Display.Handle: keeps no copies of metric batches, and of device information and the catalog only the serial number and the names, because nothing else depends on them.
- KanaliUpload.Uploader.Upload: the file does not change while it is read; an error while reading is modelled by how much of it can be read.
- KanaliExchange.ExchangeHasFate: starts from a display that waits inside no frame; after a frame was cut, what follows on the same connection would complete it, while at message level (`KanaliLink`) each request arrives whole or not at all.
- KanaliApply.Device.Apply: the readback checks media, screen mode, brightness and waterfall only, as the code does; that the other fields are right follows from `KanaliApply.EditedShows`.
- Daemon.KeepaliveGap: bounds the gap between timeouts that follow each other; requests in between may stretch it, which the code allows.
- MediaReplace.Adb.Replace: the legacy display only, from the name check to the rename; preparing the file, the checksum, showing it again and the KANALI branch are not modelled. A temporary left by an earlier interruption is overwritten.
- MediaPlan.Check: measurements are real numbers instead of floating point, and messages are left out of the findings, and which code a finding carries is stated only for those left to the user; the name, size and stream data of the report beyond what a plan needs are too.
- The bootstrap loop of the session: only which replies it accepts; it waits as `KanaliSession.Session.AwaitReply` does.
- Sessions, catalog, delete and keepalive requests of the KANALI device: single exchanges of the kind modelled.
- The serial peer's answers, and the fake display's threads and sockets.
- Fonts, badge colours and the local time of the overlay; day numbers are unbounded, so 64-bit overflow far outside any clock's range is not modelled.
- ffmpeg arguments, filters, size estimates and descriptions of a plan.
- How the daemon answers each request, and what restoring the screen does: only whether they fail and how long they take.
- The journal of operations, the terminal interface, discovery, monitoring, the daemon's socket protocol, and all printed text.
