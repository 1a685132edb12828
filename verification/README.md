# Verification of the media daemon

A Dafny model of the stateful protocols and byte-level transformations of the
camera's media daemon, with proofs of what they keep. One file per component; where
the daemon changes state in place, a class with the same fields does the same steps
and every method is proved to be a step of the value-level model beside it. Runs are
lists of steps in any order, so what is proved about a run holds for every
interleaving of the threads involved.

| file | models |
|---|---|
| AnnexB, AccessUnits | splitting H.264 byte streams, by position and byte by byte, and grouping units |
| Rtp, AudioClock | packets of video and audio, against an RFC 6184 receiver, and their timestamps |
| RtspFraming | messages cut out of a TCP stream |
| Streams, Delivery | the frame rings, and publisher, viewers and recorder over them |
| Privacy, PrivacyEngine | privacy mode |
| Speaker, SpeakerService | talkers, siren, amplifier and output thread |
| Nonce, Throttle | bounded tables that stand in for unbounded ones |
| HttpServer, HttpService | who owns a connection |
| Motor, MotorService | the pan/tilt controller |
| Schedule, Calendar | schedule edges and civil dates |
| Update | update packages, printed and received |

Devices, sockets, allocation, hashing and request parsers are parameters or choices
of the environment; clocks are explicit and only move forward. A locked section of
the C code is one step; a section ends at every unlock. Outside locks a store to an
atomic and a test of one are steps of their own, and so is the test of privacy_on that
decides about a write later in its section. Where a thread regains its lock and goes on
without giving it up, the model lets others in between, which only adds runs. A method
of MotorService or PrivacyEngine that is a step of a run also keeps the run's
invariant.

## Where the code and its documentation differ

The model follows the code; each point is proved.

- privacy_hold is tested (media/src/media.c:170) before the ring's lock is taken, so a
  frame on its way at that moment may still enter the ring with privacy on and a lens
  lit. It is the only one; every frame whose test came after is kept back until the
  lenses are black and a second has passed (Privacy.NoLeak, Privacy.KeptBackIff,
  Privacy.FrameOnItsWay).
- media/docs/platform.md:186-191 promises that a second passes after the lenses are
  black. The engine counts it from the start of the turn that covers them
  (media/src/controls.c:722-724), so whatever that turn spends before its last cover
  succeeds is missing: a full second always passes exactly when no time passes from the
  start of the turn to the success of its last cover (Privacy.FullSecondIff).
- media/README.md:293 says RTP audio timestamps advance by 8 per byte. They advance by
  1 (AudioClock.TickPerByte).
- While homing nobody else may command the motor driver (media/src/platform.c:328-330).
  jipc_platform_start does not look whether homing is under way, and the web interface
  is up before it is called (media/src/main.c:194-197): exclusivity holds exactly in
  the runs where no platform start comes during homing (Motor.OneMover,
  Motor.StartDuringHoming). Nor does it clear an earlier fault: the return move after
  such a homing stands past its limit until the next request (Motor.FaultSurvivesHoming).
  A tick honours a deadline exactly unless it is that of a goto of a faulted motor
  (Motor.DeadlineStops), and none such arises unless a platform start finds the motor
  faulted or homing (Motor.GotoServed).
- An empty NAL unit, which the scanner passes over, ends the access unit being replayed;
  without a slice so far the replay starts over and never reaches what follows
  (AccessUnits.EmptyCutsOff). Without empty units nothing is lost
  (AccessUnits.NothingLost).
- media/src/authlimit.c:2-6 has a peer refused until its window ends. That holds exactly
  as long as no call drops its slot (Throttle.RefusedUntil), which happens in two ways.
  A failure of a new peer evicts the oldest of 32 live windows, refused or not
  (Throttle.CrowdFrees). And callers read the clock before they take the lock
  (media/src/authlimit.c:70,76); a call with a time before a window's start takes it for
  over (Throttle.StaleCallFrees). With times in order only the first is left
  (Throttle.DropsInOrder).
- media/src/onvif.c:217-221 promises replay protection, and :206 admits tokens up to
  300 s ahead of the clock. A floor ahead of the clock is lowered, so it takes a clock
  that never lies behind an accepted token (Nonce.NoReplayIff).
- local_minutes rounds minutes before 1970 toward zero, next_boundary_s does not: the
  two agree on an edge exactly when it lies after the epoch (Schedule.EdgeExact).
- The 150 ms promise of the audio clock fails exactly for a first frame that is longer
  than the clock has been running by more than 150 ms (AudioClock.EndsNearNow,
  AudioClock.FirstFrameFarOff).

## Model

| member | source | states |
|---|---|---|
| AnnexB.AnnexbNext | media/src/media.c:34-47 | the answer is the first position from the start where a 3- or 4-byte start code begins (the end if none), and the payload begins right after that code |
| AnnexB.StartCode | media/src/rtsp.c:663-674 | the other scanner meets the same description, and says how long the code is (0 if there is none) |
| AnnexB.NextIsUnique | media/src/rtsp.c:663-674 | that description fixes the answer, so the two scanners agree on every input |
| AnnexB.StripIsUnique | media/src/media.c:102-103 | dropping trailing zeros leaves the one prefix that ends in a nonzero byte and is followed by zeros only |
| AnnexB.NextUnit | media/src/media.c:99-103 | one turn of stream_parameters cuts off the same unit as the splitter does: what lies between two start codes, without trailing zeros |
| AnnexB.FrameUnit | media/src/rtsp.c:689-699 | and so does one turn of video_frame, over the other scanner |
| AnnexB.HeadFromScan | media/src/rtsp.c:663-699 | splitting off the first unit and scanning for the next start code are the same cut |
| AnnexB.SplitPrint | media/src/rtsp.c:663-701 | any list of NAL units that end in a nonzero byte and hold no 00 00 01 (all that section 7.4.1 of ITU-T H.264 allows, and more), printed with any mix of 3- and 4-byte start codes and zero padding, splits back into exactly that list |
| AnnexB.SplitValid | media/src/rtsp.c:663-701 | and whatever the bytes, every nonempty unit found is such a unit: it can be printed and found again |
| AnnexB.EndAtCode | media/src/media.c:267-279 | where the streaming reader stops at a one after two zeros, the splitter cuts the same unit |
| AnnexB.EndAtEof | media/src/media.c:267-280 | where the streaming reader meets the end of the file, the splitter finds the same last unit |
| AnnexB.ZerosTooLong | media/src/media.c:269-271 | a run of zeros the reader refuses makes a unit that does not fit, wherever it lies |
| AnnexB.ContentTooLong | media/src/media.c:273 | content the reader refuses makes a unit that does not fit |
| AnnexB.AfterUnit | media/src/media.c:252-281 | after a unit, what the reader has left is the splitter's list without it |
| AnnexB.ReplayInput.ReplayNal | media/src/media.c:252-281 | 1 with the next unit after a 4-byte start code, 0 at an empty unit, which is used up, or at the end of the file, -1 only when a unit does not fit; what is left shrinks by exactly the unit read |
| AnnexB.ReplayInput.Rewind | media/src/media.c:307-311 | from the start again: all units of the file are left |
| AnnexB.ReplayInput.SkipToCode | media/src/media.c:254-262 | skipping to a start code byte by byte stops where the scanner says |
| AnnexB.ReplayAll | media/src/media.c:252-281 | streaming equals random access: for every byte sequence the reader, called to the end of the file, yields the nonempty units of the splitter's list, and fails exactly when a unit does not fit its buffer |
| AnnexB.ReplayPrinted | media/src/media.c:252-281 | so the streaming reader, too, inverts printing |
| AccessUnits.LengthIs | media/src/media.c:286-305 | the place where the code ends an access unit is the only place that meets the rules for one |
| AccessUnits.GroupsGroup | media/src/media.c:286-305 | the access units the code finds up to where it rewinds are a grouping of the stream |
| AccessUnits.StartsByType | media/src/media.c:294-297 | by the unit types of section 7.4.1 of ITU-T H.264: which units are slices, and which start an access unit |
| AccessUnits.GroupingIsUnique | media/src/media.c:286-305 | a stream has no other grouping: access units that hold a slice, in which nothing after a slice starts another, each followed by a start of another, an empty unit or the end; and a rest with no slice before an empty unit |
| AccessUnits.SplitJoined | media/src/media.c:249-251 | normalizing prefixes to four bytes loses nothing: the bytes of an access unit split into its units again |
| AccessUnits.PublishedUnits | media/src/media.c:286-305 | so for every file, whatever its bytes, every access unit published from it splits into the units of the file it was made of |
| AccessUnits.Replay.NextNal | media/src/media.c:291-292 | the pending unit before anything else from the file |
| AccessUnits.Replay.AccessUnit | media/src/media.c:286-305 | 1 with exactly the next access unit, its bytes and its keyframe flag, 0 when its end, an empty unit or the end of the file, comes before a slice; -1, if the file fits the reader, exactly when it has no room in the buffer |
| AccessUnits.Replay.Rewind | media/src/media.c:307-311 | all units of the file are to be grouped again |
| AccessUnits.Replay.Next | media/src/media.c:313-329 | without a request the next access unit of the file, the first after the last; with one the first keyframe from the start; if every unit has room, -1 exactly when there is none such (or no keyframe among the first 100000) |
| AccessUnits.GroupAll | media/src/media.c:286-305 | read until the rewind: the access units of the one grouping in order, all of them only if all have room, and always then if the file fits the reader; else those before the first that has not |
| AccessUnits.PlayOn | media/src/media.c:397-401 | played without end, frame k is access unit k modulo their number, and a file whose access units have room never stops |
| Rtp.FragmentsComplete | media/src/rtsp.c:647-659 | an RFC 6184 receiver reassembles the fragments of a unit into that unit |
| Rtp.NalComplete | media/src/rtsp.c:640-661 | so for every unit, fragmented or not |
| Rtp.FragmentRules | media/src/rtsp.c:648-659 | at most 1200 bytes each, the start bit on the first fragment only, the end bit on the last only, never both on one, the marker on the last if asked for |
| Rtp.NalRules | media/src/rtsp.c:640-661 | every packet of a unit is within 1200 bytes and only the last may carry the marker |
| Rtp.FrameRoundTrip | media/src/rtsp.c:676-701 | depacketizing what a frame became gives back the cached SPS and PPS of a keyframe and then its units, in order |
| Rtp.PrintedRoundTrip | media/src/rtsp.c:676-701 | end to end: units printed by an encoder in Annex B, sent as a frame, arrive as those units |
| Rtp.FrameMarker | media/src/rtsp.c:689-699 | only the last packet carries the marker, and it does so exactly when the last unit found is not empty |
| Rtp.SendableByType | media/src/rtsp.c:644-645 | a unit can be sent exactly if its forbidden bit is clear and its type is one of 1 to 23 |
| Rtp.AudioRules | media/src/rtsp.c:703-714 | an A-law frame becomes full pieces of 1200 bytes and a last one, each stamped by its offset, without marker |
| Rtp.TimestampExact | media/src/rtsp.c:613-621 | the split division loses nothing: a timestamp is the exact floor of the time in ticks, modulo 2^32 |
| Rtp.EmitConcat | media/src/rtsp.c:623-638 | sending one list after another numbers and orders the packets as sending both at once, across the 16-bit wrap |
| Rtp.Track.Rtp | media/src/rtsp.c:623-638 | a packet within 1200 bytes goes out under the next sequence number, or nothing does |
| Rtp.Track.H264Nal | media/src/rtsp.c:640-661 | a unit goes out whole or as its fragments; with a bad header nothing does, and if the transport fails exactly as many packets as it took |
| Rtp.Track.VideoFrame | media/src/rtsp.c:676-701 | a frame goes out as its parameter sets and units under one timestamp; it fails exactly if a unit has no valid header or the transport does, and then what went out is every packet of the units before the first bad one, or as many of them as the transport took |
| Rtp.Track.AudioFrame | media/src/rtsp.c:703-714 | an A-law frame goes out in pieces of at most 1200 bytes stamped by their offset, or as many of them as the transport took |
| RtspFraming.HeaderEndIsUnique | media/src/rtsp.c:907-910 | the first empty line is a property of the bytes, not of the search |
| RtspFraming.DecisionStands | media/src/rtsp.c:885-934 | once the framer takes a message or gives up, more bytes behind do not change its mind |
| RtspFraming.ProcessInParts | media/src/rtsp.c:883-939 | processing a stream in two parts dispatches and keeps exactly what processing it at once does |
| RtspFraming.ChunksDoNotMatter | media/src/rtsp.c:1000-1006 | for every split of the stream into received chunks the same requests and interleaved frames are dispatched in the same order, and the connection ends the same way |
| RtspFraming.TakePrinted | media/src/rtsp.c:887-934 | a well-formed message followed by anything is taken whole, and nothing more |
| RtspFraming.EmptyLineIs | media/src/rtsp.c:909 | the empty line is CR LF CR LF |
| RtspFraming.TakenIsPrinted | media/src/rtsp.c:887-934 | and whatever is taken is a well-formed message at the head of the buffer, byte for byte |
| RtspFraming.RefusedIsHopeless | media/src/rtsp.c:890-929 | a buffer is refused only if no bytes behind it could make a message of its beginning |
| RtspFraming.WaitIsHopeful | media/src/rtsp.c:888-930 | and waited on only while some could, but for a frame whose first three bytes announce too much |
| RtspFraming.ProcessPrinted | media/src/rtsp.c:883-939 | a stream of well-formed messages is dispatched as exactly those messages |
| RtspFraming.HandledStoodThere | media/src/rtsp.c:883-939 | for every stream: the messages handled stood in it one behind the other and the rest follows; a request that is refused is the last one handled and stays in the buffer; otherwise processing stops only at a refused buffer or for want of bytes |
| RtspFraming.Client.FindEmptyLine | media/src/rtsp.c:907-910 | the index after the first empty line, or 0 |
| RtspFraming.Client.Consume | media/src/rtsp.c:935-936 | shifting the buffer drops exactly the consumed bytes |
| RtspFraming.Client.Step | media/src/rtsp.c:885-930 | the decision on the buffer is the framer's on its bytes |
| RtspFraming.Client.ProcessInput | media/src/rtsp.c:883-939 | the in-place loop does what the framer does on the buffered bytes, and whenever it returns 0 the 32768-byte buffer has free space |
| RtspFraming.Client.Receive | media/src/rtsp.c:1000-1006 | a received chunk continues the stream |
| Streams.Wanted | media/src/media.c:206-213 | a reader gets the next frame while it is retained, else the oldest retained one, a new reader the latest; 0 exactly when there is nothing new |
| Streams.LatestIsLast | media/src/media.c:106-112 | the parameter set kept is the last of its type of at most 512 bytes, or what was held before |
| Streams.Stream.StreamParameters | media/src/media.c:96-117 | whether the access unit has an IDR, and the last SPS and PPS that fit are kept |
| Streams.Stream.Publish | media/src/media.c:119-141 | a frame is refused or becomes the next of the log, and the ring still holds exactly the last min(n, capacity) of the log |
| Streams.Stream.Read | media/src/media.c:189-223 | a read returns the log's wanted frame and moves the cursor there, or changes nothing |
| Delivery.PublishKeeps | media/src/media.c:161-187 | the hold test, the first ring and the second: each step keeps published frames in encoder order with an IDR first after a gap, and the second ring a frame behind the first at most |
| Delivery.Stream1Keeps | media/src/rtsp.c:941-981 | a viewer's turn sends a keyframe or the ring's successor of what it sent before |
| Delivery.Record1Keeps | media/src/record.c:96-128 | the recorder's turn keeps every segment headed by SPS, PPS and a keyframe and without a gap |
| Delivery.StepKeeps | media/src/media.c:161-187 | each of those facts survives every other party's step: testing, storing, holding, overrunning, PLAY, PAUSE, switching and closing |
| Delivery.SuccessorsDecode | media/src/media.c:181-187 | a successor in the ring stands alone or is a successor at the encoder |
| Delivery.ViewerDecodes | media/src/rtsp.c:941-981 | end to end, in every run, for viewers of the source's ring and of the one that shares it: the first frame a viewer gets is a keyframe, and every other is one or directly follows, in encoder order, the frame sent before it; the second ring holds the same frames but for the last at most |
| Delivery.SegmentsDecode | media/src/record.c:96-128 | end to end, in every run: every segment is SPS, PPS, a keyframe, and frames that are keyframes or directly follow the one written before |
| Delivery.FramesEnter | media/src/media.c:161-187 | without a hold every frame of the encoder enters the rings, in order and each once, from the first IDR on if the source waits for one |
| Delivery.HeldFramesStayOut | media/src/media.c:170-180 | during a hold none does, and the source waits for an IDR after it |
| Delivery.FailedCopyEnds | media/src/media.c:185-186 | a copy that is not made publishes nothing and ends the thread |
| Delivery.Stream1Sends | media/src/rtsp.c:941-974 | a viewer is sent the wanted frame exactly if it plays and the frame is a keyframe, or no keyframe is owed and the frame follows what it has seen |
| Delivery.PlayStartsAtKey | media/src/rtsp.c:859-869 | a paused viewer is sent nothing, and from PLAY on a keyframe first; PLAY while playing changes nothing |
| Delivery.EveryFrame | media/src/rtsp.c:941-974 | over every run: once sent a frame, a viewer that never falls a ring behind is sent every one that follows, each once |
| Delivery.Record1Writes | media/src/record.c:96-128 | if nothing fails the recorder writes the wanted frame exactly if it is a keyframe, or a segment is open and it follows what was read; and opens a segment exactly for a keyframe that finds none open, a gap, or one that is due |
| Delivery.Record1Fails | media/src/record.c:114-126 | a failed write or unknown parameter sets stop the recording exactly where they are needed |
| Delivery.EveryFrameRecorded | media/src/record.c:96-128 | over every run: a recorder with an open segment that never falls a ring behind records every frame that follows, each once |
| Delivery.Publisher.HoldTest | media/src/media.c:161-180 | refines Delivery.TestHold: a held frame makes the source wait for a keyframe and enters no ring |
| Delivery.Publisher.StoreFrame | media/src/media.c:181-185 | refines Delivery.StoreMain on the real ring, with the frame's bytes and time |
| Delivery.Publisher.ShareFrame | media/src/media.c:186 | refines Delivery.StoreShared: the ring that shares the source gets the same frame, or the thread ends |
| Delivery.Publisher.KeepParameters | media/src/media.c:170-180 | during a hold the parameter sets, and nothing else, get through |
| Delivery.VideoClient.HandlePlay | media/src/rtsp.c:859-864 | PLAY starts a paused viewer at the next keyframe and leaves a playing one alone |
| Delivery.VideoClient.HandlePause | media/src/rtsp.c:867-869 | PAUSE stops the frames |
| Delivery.VideoClient.StreamFrames | media/src/rtsp.c:941-981 | the viewer's turn in place: a read without memory changes nothing and ends the connection; else the chosen frame goes out as its RTP packets behind the parameter sets, or as much of them as Rtp.Track.VideoFrame says, or there is nothing to send |
| Delivery.ChannelRecorder.Turn | media/src/record.c:96-128 | the recorder's turn in place, with the bytes appended to the file; a read without memory changes nothing |
| Privacy.CoverFacts | media/src/media.c:676-682 | a cover touches only its lens, never lights it, and blacks it when all three settings were accepted |
| Privacy.AdvanceKeeps | media/src/controls.c:713-742 | every store of the engine keeps the privacy invariant |
| Privacy.StepKeeps | media/src/controls.c:695-742 | so does every step of anyone |
| Privacy.NoLeak | media/src/controls.c:695-742 | in every interleaving of engine, publisher and manual controls, a frame that enters a ring while privacy is on does so with every lens black, after a turn that covered them all and a later turn at least a second after that one began, unless its hold test came before the hold was last set; of those there is at most one each time, once in each ring; while a lens is uncovered frames are held |
| Privacy.KeptBackIff | media/src/media.c:170-185 | with frames told apart by whether their hold test came before privacy was last switched on: one kind is always kept back, and it is exactly the kind whose test did not |
| Privacy.FrameOnItsWay | media/src/media.c:170-185 | a run in which a frame of the other kind enters the ring with privacy on and a lens lit |
| Privacy.StaysBlack | media/src/media.c:683-692 | while privacy is on no step lights a black lens, unless a manual control tested before it came on still holds the lock |
| Privacy.StaysBlackWhileOn | media/src/media.c:676-686 | so a black lens, as every covered one is, is black throughout every run that leaves privacy on |
| Privacy.ManualSets | media/src/media.c:683-692 | a control by hand sets its one setting exactly if privacy was off when it was tested and the ISP accepts |
| Privacy.ManualCovers | media/src/media.c:676-682 | a cover by hand blacks its lens like the engine's |
| Privacy.PrivacyGoesOff | media/src/controls.c:695-742 | the turn that switches privacy off ends with privacy off, every lens at its settings, and no hold |
| Privacy.FramesFlowAgain | media/src/controls.c:742 | in every run, once the engine has ended a turn with privacy off there is no hold, and the next frame with an IDR enters the ring, whatever was held before |
| Privacy.TurnEnds | media/src/controls.c:690-742 | whatever the ISP answers the engine's turn ends within a computed number of steps |
| Privacy.CallsAsDue | media/src/controls.c:511-541 | the engine skips no call and makes none that is not due; a setting is written exactly if the ISP accepts it and privacy is off |
| Privacy.LockExcludes | media/src/media.c:624 | while a control by hand is on its way no other call reaches the ISP |
| Privacy.ShotsAreAll | media/src/media.c:185-186 | in every run each frame that entered a ring is among those NoLeak is about |
| Privacy.SlowCover | media/src/controls.c:722-724 | a run in which the cover takes d and a frame enters the ring d or a second, whichever is longer, after the covering turn began |
| Privacy.FullSecondIff | media/src/controls.c:722-724 | a full second always passes from the success of the last cover if and only if no time passes between the start of the covering turn and that success |
| PrivacyEngine.Engine.constructor | media/src/controls.c:782-786 | a camera that wants privacy starts held, with privacy on |
| PrivacyEngine.Engine.BeginTurn | media/src/controls.c:695-697 | the engine's turn notices a change of what is wanted |
| PrivacyEngine.Engine.StoreHold | media/src/controls.c:713-714 | hold before anything else, and forget the cover |
| PrivacyEngine.Engine.StoreOn | media/src/controls.c:715-717 | then the flag that keeps manual settings off the lens |
| PrivacyEngine.Engine.Decide | media/src/controls.c:722-724 | cover, release, or neither |
| PrivacyEngine.Engine.PrivacyCover | media/src/media.c:676-682 | three settings to 0 in order, stopping at a refusal |
| PrivacyEngine.Engine.CoverLens | media/src/controls.c:511-523 | one lens of the cover, remembering a failure |
| PrivacyEngine.Engine.CoverDone | media/src/controls.c:722 | the cover is on record only if no lens refused |
| PrivacyEngine.Engine.ControlTest | media/src/media.c:683-685 | a manual setting of brightness, contrast or saturation goes on, the lock in hand, only if privacy is off |
| PrivacyEngine.Engine.ControlWrite | media/src/media.c:686-691 | and then reaches the ISP, whatever was stored meanwhile, before any cover can |
| PrivacyEngine.Engine.PictureSetting | media/src/controls.c:525-536 | the engine's own settings pass the same test |
| PrivacyEngine.Engine.EndTurn | media/src/controls.c:742 | privacy off lets frames through at the end of the turn |
| Speaker.Kept | media/src/speaker.c:347-352 | an accepted submit never leaves the queue empty or over its size, nor a backchannel over 4800 bytes |
| Speaker.SubmitLoses | media/src/speaker.c:344-352 | POST /api/v1/talk loses nothing; a backchannel nothing up to 4800 queued bytes, else all but the newest 2400; only the oldest are dropped |
| Speaker.ReleaseKeepsOldest | media/src/speaker.c:358-372 | only the lease holder can release; the session is marked, the oldest 1600 bytes stay queued and exactly the newer ones are dropped |
| Speaker.ThreadControlled | media/src/speaker.c:156-241 | every locked section of the thread keeps output, amplifier and session in step, and writes only as it should |
| Speaker.StepOwned | media/src/speaker.c:314-431 | no caller's and no thread's step shares or orphans the speaker |
| Speaker.StepAccounted | media/src/speaker.c:92-98 | no step loses, doubles or reorders a byte |
| Speaker.RunKeeps | media/src/speaker.c:156-431 | all of it holds in every run |
| Speaker.NobodyOrphaned | media/src/speaker.c:156-239 | in every interleaving: all queued bytes are the lease holder's; a sounding siren has no queue and no lease beside it; a lease without a session has audio queued; a session held by neither is marked released |
| Speaker.AmplifierSafe | media/src/speaker.c:183-237 | in every interleaving: what is written goes to an open output in a session whose amplifier-on command succeeded; outside sessions the amplifier is off or a mute is pending; while a frame is written half duplex mutes the microphone |
| Speaker.PlayedInOrder | media/src/speaker.c:222-228 | in every interleaving: accepted = queued + taken for playing + discarded, byte by byte; taken bytes are accepted ones in the order of acceptance, before all queued ones |
| Speaker.StepHeard | media/src/speaker.c:222-238 | no step takes a byte for playing without writing it |
| Speaker.TakenIsHeard | media/src/speaker.c:222-238 | in every interleaving: the bytes taken for playing are, in order, those of the frames written and of the one being written |
| Speaker.SessionChooses | media/src/speaker.c:203-228 | in a session: the siren until its deadline and at its own volume; else the oldest bytes, at most 320; without any the end if released or after 500 ms, a starved wait until then |
| Speaker.QuietOnlyStarved | media/src/speaker.c:217-221 | silence is written only to a session that was without bytes when its 40 ms wait began and when it ended |
| Speaker.IdleChooses | media/src/speaker.c:170-192 | outside a session: an output idle for 10 s is closed; a fault or a closed gate drops queue and siren; else what waits gets its session |
| Speaker.MuteIsRetried | media/src/speaker.c:161-168 | a mute that failed is tried again, up to 100 times, before anything else |
| Speaker.StopMutes | media/src/speaker.c:102-119 | a stop leaves nothing to mute if the amplifier went off, and 100 attempts if not |
| Speaker.BackoffDoubles | media/src/speaker.c:144-149 | faults in a row back off 5, 10, 20, 40 and then 60 seconds |
| Speaker.FaultBacksOff | media/src/speaker.c:190-197 | an output that does not open or an amplifier that does not switch on faults for that long, and anything else starts the session |
| Speaker.WriteCounts | media/src/speaker.c:229-238 | every frame is written once; two refusals in a row are survived, a third faults, a success forgets both |
| Speaker.SubmitAccepts | media/src/speaker.c:314-356 | a submit is accepted if and only if it has 1 to 8000 bytes, the gate is open, no fault backs off, no siren sounds, the speaker is free or the talker's own, and a POST has room |
| Speaker.HolderGoesOn | media/src/speaker.c:325-340 | so after an accepted backchannel submit the talker's next is accepted and everybody else's is refused as busy |
| Speaker.SirenTakesOver | media/src/speaker.c:390-419 | an accepted siren leaves no talker and no queue, and has its own volume and deadline |
| Speaker.MutedWhile | media/src/speaker.c:374-388 | in every run half duplex mutes the microphone during sessions and for 300 ms after, and never otherwise |
| Speaker.EndsExactlyWhen | media/src/speaker.c:204-206 | a session ends in a locked section if and only if the siren's deadline passed, the release drained, 500 ms went without audio, the output or amplifier failed to start, or a third write in a row failed |
| Speaker.SessionEnds | media/src/speaker.c:203-238 | with no further calls and an advancing clock every session ends within a bound computed from queue, siren and deadman, whatever the devices answer |
| Speaker.AudioStarts | media/src/speaker.c:163-202 | queued audio, or a siren, gets its session within seven locked sections with nothing lost, or is dropped because the output is faulted |
| Speaker.AllHeard | media/src/speaker.c:203-238 | left alone with a device that works, a session writes every queued byte in order before it ends |
| Speaker.QueuedIsHeard | media/src/speaker.c:156-238 | end to end: audio queued for an output that is not faulted is written, all of it and in order, within a computed number of sections |
| SpeakerService.Ring.DropOldest | media/src/speaker.c:92-98 | drops from the front of the circular queue |
| SpeakerService.Ring.Truncate | media/src/speaker.c:366 | keeps the front |
| SpeakerService.Ring.Append | media/src/speaker.c:348-349 | appends around the end of the buffer |
| SpeakerService.Ring.Take | media/src/speaker.c:223-227 | takes up to 320 bytes from the front and pads the frame with silence |
| SpeakerService.Service.constructor | media/src/speaker.c:254-263 | the speaker starts as modelled, with a mute pending once the gate is open |
| SpeakerService.Service.TalkSubmit | media/src/speaker.c:314-356 | answers and changes the state exactly as the submit of the run theorems: refusals in the source's order, else the lease, the bytes and the loss of SubmitLoses |
| SpeakerService.Service.Append | media/src/speaker.c:346-352 | the circular buffer afterwards holds old and new bytes without the ones dropped, each accounted for |
| SpeakerService.Service.TalkRelease | media/src/speaker.c:358-372 | refines Speaker.Release: only the holder can, and the oldest 1600 bytes stay |
| SpeakerService.Service.SirenStart | media/src/speaker.c:390-419 | true exactly within the siren's limits, the open gate and no running back-off; then talker, lease and queue are gone and the deadline is set |
| SpeakerService.Service.SirenStop | media/src/speaker.c:421-431 | a sounding siren is off and its session released; otherwise nothing changes |
| SpeakerService.Service.TalkIsActive | media/src/speaker.c:374-388 | true exactly in half duplex during a session and for 300 ms after its end |
| SpeakerService.Service.AfterStop | media/src/speaker.c:102-119 | a refused mute leaves a mute pending with its attempts renewed |
| SpeakerService.Service.Iterate | media/src/speaker.c:161-168 | refines Speaker.Iterate, and asks the device for exactly the call that step stands for |
| SpeakerService.Service.AfterMute | media/src/speaker.c:167-170 | a mute that succeeded is no longer pending; then as without a session |
| SpeakerService.Service.AfterOpen | media/src/speaker.c:192-201 | goes on only if the output is open and the amplifier on, else faults |
| SpeakerService.Service.AfterStarved | media/src/speaker.c:217-221 | after 40 ms without audio a frame of silence, else back to the loop |
| SpeakerService.Service.AfterWrite | media/src/speaker.c:229-238 | refines Speaker.AfterWrite: the write is recorded with what held, and the third refusal in a row faults |
| Nonce.NextExact | media/src/onvif.c:222-229 | each call keeps the ring and the floor a function of the history: the last 1024 accepted tokens in their places, and the newest creation time among those forgotten before they expired |
| Nonce.AcceptsIff | media/src/onvif.c:222-226 | so a call is accepted if and only if it is in the window, was created after every token forgotten early, and is not among the last 1024 unless expired |
| Nonce.DecidesExactly | media/src/onvif.c:206-230 | in every run with a clock that does not step back and honest accepted tokens, the next token is decided by that rule about the history of accepted ones |
| Nonce.FreshPasses | media/src/onvif.c:217-230 | however full the ring, a token of the window with a nonce of its own passes if and only if it was created after every token forgotten early |
| Nonce.NoReplay | media/src/onvif.c:217-230 | with a clock that does not step back and accepted tokens created after 1970 and not in the future, the ring never accepts the same nonce hash and creation time twice, over any run |
| Nonce.AheadOfTheClock | media/src/onvif.c:223-229 | 1025 accepted tokens, a request at which the clock is behind them, and the first of them is accepted again |
| Nonce.NoReplayIff | media/src/onvif.c:217-230 | with tokens at most so far ahead of the clock and a clock that steps back at most so far: no run accepts a token twice if and only if both are zero |
| Nonce.ExactUntilForced | media/src/onvif.c:217-230 | while no token was forgotten early it decides every call exactly as a table of all accepted tokens |
| Nonce.NonceRing.Authorize | media/src/onvif.c:222-230 | the code in place: window, floor, search of 1024 slots, overwrite |
| HttpServer.SettleAllMoves | media/src/http.c:563-571 | the sweep after a poll moves each connection from owner to owner or closes it, once |
| HttpServer.SettleFrame | media/src/http.c:563-571 | and empties only places whose descriptor was watched |
| HttpServer.StepMoves | media/src/http.c:522-586 | every step other than accepting moves a connection from owner to owner, or to the closed |
| HttpServer.AcceptKeeps | media/src/http.c:574-583 | a new connection gets one owner and a descriptor nobody has |
| HttpServer.StepKeeps | media/src/http.c:522-666 | every step of workers, acceptor and stop keeps one owner each, distinct descriptors and a truthful active table |
| HttpServer.OneOwner | media/src/http.c:522-666 | in every run every accepted connection is queued, idle, with one worker, with the acceptor or closed, exactly one of them; so closed at most once, and once the joined threads are gone all are closed |
| HttpServer.ShutsDownOwned | media/src/http.c:655-662 | in whatever run the stop call comes, the descriptors it shuts down are exactly those of the connections workers are handling, no other open connection has one of them, and none was shut down before |
| HttpServer.PollMovesOnlySeen | media/src/http.c:547-571 | a stale poll set never moves or closes a connection parked while the acceptor polled |
| HttpServer.DoneKeeps | media/src/http.c:530-541 | after a request the connection is kept if and only if it may be used again, nothing stops and the idle list has room; else it is closed |
| HttpServer.SettleDecides | media/src/http.c:566-571 | a watched connection that is over is closed, one with a request is queued if there is room, any other stays |
| HttpServer.UnwatchedStays | media/src/http.c:567 | one whose descriptor was not watched stays |
| HttpServer.PollWatches | media/src/http.c:547-557 | the poll watches every idle connection while a request could be queued, and none otherwise |
| HttpServer.PollSettlesAll | media/src/http.c:566-572 | every place is settled once, in order |
| HttpServer.PlaceDecides | media/src/http.c:581-584 | a new connection is queued unless the queue is full or the server stops, and closed then |
| HttpServer.TakeServesOldest | media/src/http.c:522-529 | a waiting worker gets the oldest queued connection, unless the server stops |
| HttpServer.FailuresDecide | media/src/http.c:560-561 | an interrupted poll is repeated, any other failure ends the acceptor, a failed accept is forgotten |
| HttpService.Server.Enqueue | media/src/http.c:583 | appends to the circular queue |
| HttpService.Server.Dequeue | media/src/http.c:527 | takes from its front |
| HttpService.Server.TakeWork | media/src/http.c:525-528 | the oldest queued connection becomes this worker's alone and its descriptor is shown; a stopping server ends the worker |
| HttpService.Server.Finish | media/src/http.c:530-537 | the descriptor is hidden first; then the connection is in the idle list and nobody else's, or the worker's to close, as the answer says |
| HttpService.Server.BuildPollSet | media/src/http.c:549-557 | watches exactly the idle connections' descriptors while the queue has room, and none otherwise |
| HttpService.Server.SettleIdle | media/src/http.c:561-572 | refines HttpServer.Polled, the step that PollMovesOnlySeen is about |
| HttpService.Server.PlaceNew | media/src/http.c:581-584 | the new connection has exactly one owner or is closed |
| HttpService.Server.StopAll | media/src/http.c:655-662 | refines HttpServer.Stop, the step ShutsDownOwned is about: neither queue nor idle list owns anything, each of theirs closed once |
| HttpService.Server.CloseQueue | media/src/http.c:658 | the whole queue closed in order |
| HttpService.Server.CloseIdle | media/src/http.c:659 | the whole idle list closed |
| HttpService.Server.ShutdownActive | media/src/http.c:661 | the loop over the active table shuts down every descriptor shown there, in order |
| Throttle.Position | media/src/authlimit.c:24-28 | the first live slot of the peer, or none |
| Throttle.Victim | media/src/authlimit.c:29 | a free slot, or else a window that began no later than any other |
| Throttle.AnswersAgree | media/src/authlimit.c:37-44 | a table that holds a map's live windows blocks exactly whom the map blocks |
| Throttle.ResultAgrees | media/src/authlimit.c:46-53 | every success or failure keeps that agreement, with the map letting go of whoever was evicted |
| Throttle.EvictsSoonest | media/src/authlimit.c:21-35 | an eviction is forced only by 32 live windows of others and takes one that ends no later than any |
| Throttle.BlocksExactly | media/src/authlimit.c:21-53 | in every run with times that do not decrease no peer has two slots, and while no eviction was forced a peer is blocked exactly when an unbounded map of 60 s windows and 10 failures blocks it |
| Throttle.StepNoTwice | media/src/authlimit.c:21-53 | whatever the order of call times, no peer ever has two slots |
| Throttle.BlockedWhile | media/src/authlimit.c:26 | a refusal lasts exactly while the window does |
| Throttle.StaysBlockedIff | media/src/authlimit.c:21-53 | a refused peer stays refused through a call, of whoever and at whatever time, if and only if the call neither takes its window for over nor gives its slot to a new peer; both can be told before the call |
| Throttle.DropsInOrder | media/src/authlimit.c:21-53 | a call whose time lies between the window's start and now can only do the latter |
| Throttle.SuccessFreesNobody | media/src/authlimit.c:46-53 | so a success, of whatever peer, frees no blocked peer |
| Throttle.RefusedUntil | media/src/authlimit.c:21-53 | over every run of calls at whatever times: refused until its window ends, exactly when no call does either |
| Throttle.StaleCallFrees | media/src/authlimit.c:26 | ten failures, and one call of anyone whose time lies before them, by any amount but the last minute of the 64-bit range: no longer refused |
| Throttle.CrowdFrees | media/src/authlimit.c:29-33 | ten failures, then one each of 32 other peers, all in order: no longer refused |
| Throttle.Table.Search | media/src/authlimit.c:23-30 | stops at the peer's live slot, having cleared only windows that the unsigned difference says are over; without one, names the victim |
| Throttle.Table.Find | media/src/authlimit.c:21-35 | the peer's slot, or none, or the victim's slot given to the peer, all other slots as the search left them |
| Throttle.Table.BlockedAt | media/src/authlimit.c:37-44 | refines Throttle.Blocked, the answer BlocksExactly is about |
| Throttle.Table.ResultAt | media/src/authlimit.c:46-53 | refines Throttle.Result, the change ResultAgrees is about |
| Motor.StopHalts | media/src/platform.c:210-223 | a stop clears lease, velocity, goto and displacement and starts a new generation, whatever the driver answers |
| Motor.SentDrives | media/src/platform.c:210-223 | a command the driver accepts moves or halts the head, the speed alone and a refused one do neither |
| Motor.ReadTakes | media/src/platform.c:150-167 | a reading counts if it lies in the travel or at most 100 steps beyond, and is cut to the travel; any other changes nothing |
| Motor.StopAsks | media/src/platform.c:210-223 | a stop succeeds without a driver, or if the driver takes it and can be read; only then is nothing taken to move |
| Motor.OpensWith | media/src/platform.c:187-208 | the device opens once, with limits of 100 to 8600 and 100 to 2000 steps, its speed taken and a position to read; otherwise it stays closed |
| Motor.WorkerKeeps | media/src/platform.c:361-404 | every tick keeps one mover at most |
| Motor.CallerKeeps | media/src/platform.c:626-720 | so does every request, preset_set included |
| Motor.StepKeeps | media/src/platform.c:301-404 | and only a platform start during homing lets a stranger command the driver |
| Motor.OneMover | media/src/platform.c:301-404 | in every run at most one of homing, goto and manual lease is active, and while homing nobody but home_tick (or a shutdown) commands the driver, even across the unlocked reset, if and only if no platform start came during homing |
| Motor.StartDuringHoming | media/src/platform.c:990-1010 | a run in which it does: a recalibration just before the platform starts |
| Motor.FaultSurvivesHoming | media/src/platform.c:990-1010 | a run: a motor faulted before the platform starts is homed and stays faulted, and the goto after it is past its limit and stands through every tick |
| Motor.DeadlineStops | media/src/platform.c:361-373 | the first tick at or after the time limit of homing, a goto or a lease clears the motion and sends a stop, after which, if the driver accepts it, nothing drives the head; exactly unless it is a goto of a faulted motor, which the tick leaves as it is |
| Motor.GotoServed | media/src/platform.c:361-373 | in every run in which no platform start found the motor faulted or homing, neither a goto nor homing is ever faulted, so DeadlineStops ends each |
| Motor.DeadlineFaults | media/src/platform.c:366-373 | a lease that ends is no fault unless its stop fails; a goto or homing that is too late is one |
| Motor.ShutdownEnds | media/src/platform.c:406-440 | at shutdown the head is stopped and the next tick is the worker's last |
| Motor.NudgeNotExtended | media/src/platform.c:640-651 | a nudge ends within 350 ms of now, and no step extends its lease without starting a new generation |
| Motor.MotionStarts | media/src/platform.c:636-651 | a request to move starts a lease of 1.2 s (a nudge 350 ms) on its larger axis in place of whatever moved; the same motion again renews the lease, a nudge does not |
| Motor.RefusalsStand | media/src/platform.c:626-640 | while homing, in privacy mode, at shutdown or without a device a request to move does nothing but try to open it |
| Motor.NoStopNoMotion | media/src/platform.c:636-718 | no request starts a motion if its stop failed |
| Motor.SameMotionRenews | media/src/platform.c:636-646 | the same motion again renews its lease, and a nudge nothing |
| Motor.NewMotionIsFresh | media/src/platform.c:640-654 | a new motion is on the larger axis, at nine steps a second per unit between 100 and 900 (a nudge at its own speed), and not sent yet |
| Motor.StopRequestStops | media/src/platform.c:630-654 | a stop request stops whatever moves, but for homing |
| Motor.PositionIsRead | media/src/platform.c:655-656 | saving a preset stops the head and reads where it is; a status only reads, and not while homing |
| Motor.HomesOrFaults | media/src/platform.c:696-709 | recalibrating and the platform start home the head exactly if the driver takes stop, speed, reset and sweep, and fault if not |
| Motor.PrivacyStops | media/src/platform.c:868-901 | privacy mode stops the head, unless it homes, and sends it away only if there is somewhere to go |
| Motor.ManualWithinTravel | media/src/platform.c:388-394 | in every run, whatever a tick makes the head do outside homing and gotos is one displacement on one axis, in the direction asked for and inside the travel, and for a nudge at most 244 steps |
| Motor.GotoSteers | media/src/platform.c:374-403 | what a tick sends for a goto leads exactly to its target on one axis, pan first, from where the head was found, at the goto's own speed or 450; on target the goto ends; off it a willing driver is under way |
| Motor.GotoArrives | media/src/platform.c:374-403 | with a driver that completes each displacement a goto reaches its target by at most two, pan and then tilt, and ends there |
| Motor.TargetsTaken | media/src/platform.c:710-718 | an accepted request and privacy mode set the target that GotoArrives reaches |
| Motor.LeaseMoves | media/src/platform.c:387-403 | a manual move is sent once: to the end of the travel, or for a nudge as far as its remaining time and 100 ms allow; then its lease ends |
| Motor.HomingBegins | media/src/platform.c:301-311 | homing sends stop, speed, reset and sweep in that order, as far as the driver takes them |
| Motor.HomingAdvances | media/src/platform.c:312-356 | a tick of homing: fails at its deadline or without a reading, waits while the head settles or moves, resets the driver at the end of the sweep, and at rest again stops it, asks limits and position and returns the head |
| Motor.ResetAdvances | media/src/platform.c:333-337 | the reset done, homing goes on with the deadlines of the tick that began it, or fails |
| Motor.NeverUnattended | media/src/platform.c:361-404 | with a driver that accepts stops, in every run whatever drives the head is homing, or a goto or lease of an unfaulted motor |
| Motor.LaterTickEnds | media/src/platform.c:361-404 | and so, in each of these runs, the first tick at or after the deadline leaves nothing driving it |
| MotorService.Platform.HomeTickAt | media/src/platform.c:312-333 | refines Motor.HomeTickStep: no other mover is started while homing, and failure ends it with a stop |
| MotorService.Platform.AfterReset | media/src/platform.c:333-337 | a failed reset ends homing with a stop; else its deadlines are counted from the tick that began it |
| MotorService.Platform.NativeTickAt | media/src/platform.c:361-404 | refines Motor.NativeTick, the tick DeadlineStops and NeverUnattended are about |
| MotorService.Platform.Move | media/src/platform.c:636-651 | refines Motor.Motion, the request MotionStarts is about; refused while homing or in privacy mode |
| MotorService.Platform.SavePreset | media/src/platform.c:655-656 | refines Motor.SaveCall: stops the head and reads where it is |
| MotorService.Platform.ReadStatus | media/src/platform.c:913-914 | refines Motor.Status: opens and reads the motor, but not while it homes |
| MotorService.Platform.GoTo | media/src/platform.c:710-718 | refines Motor.GotoCall: replaces whatever moved, refused while homing or in privacy mode |
| MotorService.Platform.RecalibrateHead | media/src/platform.c:695-704 | refines Motor.Recalibrate: homing, or a fault if the driver refuses; refused while homing |
| MotorService.Platform.StartHoming | media/src/platform.c:1001-1007 | refines Motor.PlatformStart, which does not look whether homing is under way |
| AudioClock.SamplesExact | media/src/audio.c:38-41 | samples_us is the exact floor for every count and rate |
| AudioClock.SamplesAdd | media/src/audio.c:38-41 | and splitting a duration never makes it longer, nor shorter by more than a microsecond |
| AudioClock.InitRate | media/src/audio.c:31-36 | a clock starts at its rate, or at 8 kHz for none |
| AudioClock.StampsForward | media/src/audio.c:53-74 | time never repeats or goes back; a re-anchor skips more than 150 ms beyond the previous frame's end, anything else starts exactly there |
| AudioClock.EndsNearNow | media/src/audio.c:46-51 | a frame the ahead test admits leaves the timeline's end within 150 ms of the capture clock, except exactly when it is the first and longer than the clock has run by more than that |
| AudioClock.FirstFrameFarOff | media/src/audio.c:46-51 | such a first frame: 200 ms of audio in the first microsecond |
| AudioClock.DroppedIff | media/src/audio.c:46-51 | a running clock drops a frame if and only if it would leave the timeline more than 150 ms ahead |
| AudioClock.TickPerByte | media/src/rtsp.c:703-714 | between re-anchors the packets of a run of frames carry the captured bytes without a gap, one tick per byte modulo 2^32 (section 4.5.14 of RFC 3551) |
| AudioClock.ReanchorTicks | media/src/audio.c:67-71 | a re-anchor moves the timestamp at least 1200 ticks past the bytes sent |
| AudioClock.SampleClock.IsAhead | media/src/audio.c:46-51 | true exactly for a started clock whose end with this frame would be more than 150 ms ahead |
| AudioClock.SampleClock.StampFrame | media/src/audio.c:53-74 | refines Stamp and After, the timeline StampsForward and TickPerByte are about, and reports a re-anchor |
| Schedule.OnCalendar | media/src/controls.c:148-153 | from the epoch on the schedule is the calendar's, before it every minute starts 59 s early |
| Schedule.WindowIsArc | media/src/controls.c:119-124 | a window holds the minutes from its start up to its end around the clock, none if they are equal |
| Schedule.EdgeExact | media/src/controls.c:119-168 | for all wall times, zones and windows with different edges, past midnight too, the schedule holds still until next_boundary_s has elapsed and flips exactly then, if and only if that edge lies after the epoch |
| Schedule.EdgeBeforeEpoch | media/src/controls.c:148-153 | a time before the epoch at which it does not |
| Schedule.OverrideEnds | media/src/controls.c:545-550 | with a schedule, privacy switched by hand holds until a moment in the very second at which the schedule next flips, if and only if that second lies after the epoch, and from there on the schedule rules |
| Schedule.WantedWithout | media/src/controls.c:545-550 | without an override the schedule rules, and without a schedule the switch |
| Schedule.NextBoundaryS | media/src/controls.c:156-168 | the loop over both edges finds the nearer, never 0 and never more than a day |
| Calendar.YearDaysClosed | media/src/onvif.c:162-165 | the 400-year era arithmetic counts y*365 + y/4 - y/100 + y/400 days for every year, negative ones included |
| Calendar.NextDayIsOneMore | media/src/onvif.c:161-166 | civil_days of the next day is exactly one more, for every date of every year |
| Calendar.DateOfDays | media/src/onvif.c:161-166 | so it numbers the dates from 1970 on without gap or repetition |
| Calendar.ReadsTheInstant | media/src/onvif.c:167-187 | a timestamp is read as v if and only if a clock in its zone shows it at v: equal instants in different zones get one value, and order is kept |
| Calendar.TextIsScanned | media/src/onvif.c:169 | the six numbers, written with leading zeros, are scanned back whatever the zone behind them |
| Calendar.WrittenIsRead | media/src/onvif.c:167-187 | round trip: in every zone, what a clock shows at v, written down, is read as v |
| Calendar.SkipFraction | media/src/onvif.c:174 | the optional fraction: one to nine digits |
| Calendar.ReadCreated | media/src/onvif.c:167-187 | a value exactly for a text whose six numbers take 19 characters, valid fields and a valid zone: the one ReadsTheInstant is about |
| Update.NumbersAreRead | media/src/update.c:196-198 | the header's five numbers, printed after spaces, are read back |
| Update.AnyNumberIsRead | media/src/update.c:197 | a number behind any white space, with or without a sign, is read up to its last digit if it fits 32 bits |
| Update.HeaderFits | media/tools/make-media-update.py:73-74 | sizes within the limits always fit the 96-byte header |
| Update.PackageIsAcceptable | media/tools/make-media-update.py:72-74 | every package of parts within the limits is accepted, and cut by its header gives those parts |
| Update.AcceptedIsSound | media/src/update.c:195-208 | and nothing is accepted without the header's marks, five numbers within the limits, and the size they add up to |
| Update.Upload.Next | media/src/update.c:152-164 | the next bytes come from the first buffer while it lasts, else from a pull |
| Update.Upload.ReadHeaderBytes | media/src/update.c:184-194 | 96 bytes, however they arrive |
| Update.Upload.WriteAll | media/src/update.c:165-169 | written until done or refused, an interrupted write again |
| Update.Upload.WritePart | media/src/update.c:144-175 | success means the file is exactly the next bytes of the upload |
| Update.Upload.WriteParts | media/src/update.c:208-211 | so for all parts in order |
| Update.Upload.Receive | media/src/update.c:177-213 | the signature check is reached only with an acceptable header, all announced bytes and the files cut from them, and always then if nothing fails |
| Update.Deliver | media/src/update.c:177-213 | round trip: for any five parts within the limits and every division of the upload, the files are the parts and not a byte is left over |
| Update.CutShort | media/src/update.c:163 | an upload shorter than announced never reaches the signature check |

## Left out

- The IMP SDK, GPIO, ioctls, TLS, sockets, files and processes: foreign calls, represented by what they may answer.
- The admin UI, web/app.js, installers and release scripts: orchestration.
- A-law coding: a finite table. Aim calibration and audio levels: floating point.
- ONVIF and discovery SOAP, JSON and the overlay font: text. RTSP request parsing and responses are parameters of the framer; its 400 replies are not modelled.
- RTP header bytes, RTCP, UDP loss, and the check between fragments that a client is being shut down (media/src/rtsp.c:658): a packet is a value, and the transport fails after some number of packets.
- Recording after a failed write, and switching recording on again before the failed segment was closed.
- Speaker volume, its restoration after a siren, the status counters and the shutdown of the speaker thread (media/src/speaker.c:240-248); external speaker_enable controls: only the speaker thread drives the amplifier here. The two silent frames of stop_output are not in the write history.
- Speaker.EndsExactlyWhen: time does not pass inside a locked section, so the clock readings within one agree.
- Nonce.NoReplay: that times do not decrease in the order the lock is taken is a hypothesis (media/src/onvif.c:206 reads the clock before it); see Nonce.NoReplayIff.
- Throttle.BlocksExactly: call times in that order are a hypothesis too; Throttle.RefusedUntil does without.
- Privacy: snapshots (media/src/media.c:708-730) and the muted microphone. The three writes of a cover are one step, made under the control lock.
- AccessUnits.Replay.Next: read errors of the file, which end the replay.
- HttpServer.OneOwner: when an idle connection is due is the environment's choice (Signal); the 15 s deadline is not modelled.
- Motor: the arguments of the driver's reset; the names of presets and their storage, the replay backend, saving the position, and where the head goes after homing or in privacy mode; targets are parameters.
- Update.Upload.Receive: header numerals beyond 32 bits, which C leaves undefined, are refused; manifest checks after the signature are not modelled.
- Schedule.OverrideEnds: the wall clock is not stepped while the override lasts.
- Schedules of night mode and white light, the patrol and the overlay: the same window functions, other devices.
