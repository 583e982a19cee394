# Frameworks/av camera client and command-line tools: verified models

A Dafny model of the self-contained state machines, encoders and indexes of the camera client
library (`camera/`) and of the `stagefright` and `screenrecord` command-line tools (`cmds/`), with
proofs of what they promise. `dafny verify dfyconfig.toml` checks everything.

Each file is one module. Code that the repository writes as objects and loops is a class or a
method with loops here; every such method is proved against a specification function or predicate,
and what the source promises is proved about that specification, over every input or every run.
Where the repository uses a lock, each region that holds it is one atomic event, so runs of events
are the interleavings of the threads. Real clocks, codecs, the extractor, the audio track and the
listener are an environment that answers as it likes.

| module | models |
|---|---|
| StreamChunker | the transport-stream writer and its circulating buffers (`cmds/stagefright/stream.cpp`) |
| OverlayThread | the overlay thread, its two condition variables and its drop counter (`cmds/screenrecord/Overlay.cpp`) |
| PlayerMessages, PlayerBuffers, AudioRing | SimplePlayer: message handling and generations, buffer ownership, audio counters (`cmds/stagefright/SimplePlayer.cpp`) |
| VendorTags, VendorTagParcel, SortedVectors | vendor tag descriptors, their reverse index and parcel (`camera/VendorTagDescriptor.cpp`) |
| MetadataStore, MetadataObject, MetadataBlob | camera metadata: growth, map behaviour, locking, aligned blob (`camera/CameraMetadata.cpp`) |
| LineBreak, GlyphTexture | line breaking and glyph layout (`cmds/screenrecord/TextRenderer.cpp`) |
| ParameterText, OrderedParameters, SortedParameters, SizeText | both camera parameter classes, their text form and the pairs in it (`camera/CameraParameters2.cpp`, `camera/CameraParameters.cpp`) |
| Avcc | AVCDecoderConfigurationRecord to start-code form (`cmds/stagefright/sf2.cpp`) |
| EosLoop | the decoding loop and its end-of-stream handshake (`cmds/stagefright/codec.cpp`) |
| Trimming | the sample loop of the muxer (`cmds/stagefright/muxer.cpp`) |
| FrameMonitor | the frame and metadata monitor (`camera/ProCamera.cpp`) |
| Arithmetic, Sequences, Wrappers | facts about division and remainders, and definitions, used above |

## Assumptions

- `SortedVector` and `KeyedVector` are sorted by key, and adding an existing key replaces its value.
- `Vector::removeAt` with an index past the end changes nothing.
- The `camera_metadata` library is an ordered list of entries with a limit on their number and on
  the room of their data; find returns the first entry with a tag; allocation succeeds.
- `CAMERA_METADATA_VENDOR_TAG_BOUNDARY`, `NUM_TYPES` and the error values -1 come from system
  headers that are not part of this model; their values are constants of VendorTags.
- A parcel is a list of typed items, read in the order written. `Vector::setCapacity` gives 0 for 0 and succeeds
  for every other number.
- `size_t`, `uintptr_t` and `long` have 64 bits, `int` has 32, `char` is signed or unsigned (either
  way a character outside the glyph table is drawn as a question mark).
- The audio track blocks and its buffers are obtained without errors, so that `AudioTrack::write` takes every
  whole frame it is given (`media/libmedia/AudioTrack.cpp`); its server moves the play position no further than
  what was written.
- Floats are real numbers in LineBreak, and a negative one converted to `size_t` gives 0. The only
  fact used about the font is that every glyph is wider than the two pixels it shares; the smallest
  in `cmds/screenrecord/FontBitmap.h` is 6 wide.
- Times and frame counts that the source keeps in 64-bit or 32-bit integers are unbounded unless a
  module says otherwise; they wrap where wrapping matters (the generation counter, the audio frame
  counters, the drop counter, the parcel's sizes, the texture offsets).

## What the code does not do as documented

Where the code and its documentation or an obvious expectation disagree, the model follows the
code. For each item the members named show inputs where they differ and say exactly when they agree.

- `include/camera/CameraParameters2.h` has a map whose `add` never replaces and whose `removeItem`
  tests an unsigned index for being negative. A text with a repeated key therefore yields repeated
  entries: a later set is then invisible and counts as the oldest (OrderedParameters.RepeatedKeyHidesSet,
  SetIsFoundIff, RemoveIsCompleteIff, RepeatedKeyBreaksOrder). For lists without repeated keys the
  promise of the comment holds (OrderIsTimeOfLastSet).
- `cmds/screenrecord/Overlay.h` allows `stop` without `start` and says that states only advance. A
  stop before start leaves the state STOPPING for as long as start is not called (StopWithoutStart).
  BackwardRuns shows a run for each kind of step back, and BackwardStepIff says that there are no others.
- `onDoMoreStuff` runs only while started, but not only for one message: after 2^31 starts and stops
  the messages of the first start and of the last are both acted upon and posted again (TwoChains).
  ActsOnIff says which messages are, in every run.
- `renderAudio` checks that the track took every byte, but the track takes whole frames only: a buffer that
  ends in a partial frame, with room for it, ends the process. PassesIff says for which sizes the check holds
  and PlayerBuffers.FailsCheck for which buffers it fails; the runs that survive count every byte (RingBounded).
- The vendor tag round trip changes the reverse index when two tags share a section and a name and
  the larger is listed first (ReverseIndexMayChange, RoundTripIdentityIff), and a repeated tag makes
  the parcel unreadable (RepeatedTagFails, RoundTripSucceedsIff).
- The reader of vendor tags checks the section indices against the number of names announced, but stores repeated
  names once, and computes the largest index plus one in 32 bits. It then reads outside its section table
  (RepeatedSectionName, LargestIndexWraps). ReadsOutsideIff and ReadsOutsideOnlyThen say for which parcels:
  those with a tag whose index is not below the number of distinct names. With distinct names and indices below
  2^32-1 it stays inside (DistinctNamesStayInside).
- Erasing a tag that an append has stored twice uncovers the other value (SharedTagResurfaces,
  RefinementStep). Acquiring from a locked object loses the target's own metadata; the contract of
  MetadataObject.CameraMetadata.AcquireFrom says what happens in each case.
- A metadata blob whose size is a multiple of 2^32 is read back as no metadata (HugeBlobReadsAsNull),
  and sizes that do not fit an int32 are never read back (RoundTripIff).
- `breakString` says its caller should detect an empty rest of a string; the caller does not, and
  draws an empty line (TrailingSpaceDrawsEmptyLine), exactly when the last line starts at the end of the
  string (EmptyLineIff). When the last line starts at the last character and that is wider than the line, the
  loop runs past the end of the string, and only then (DrawWideCharacter, LastLineIff, DrawPieces).
- A codec that ends by itself ends the decoding loop with samples undelivered (EarlyEndStopsTheLoop);
  CompleteIff says from the codecs' answers which tracks were given everything, and LeftIff when the loop is left.
- With reordered times, trimming can start a second run whose times begin at 0 again
  (SecondRunRestarts); ContiguousIff says for which samples there is only one.
- `waitForFrameMetadata` clears the flag only if it had to wait, so one result satisfies any number
  of calls (OneResultManyReturns, FlagIsOfLastResult); the constructor leaves the flag uninitialized.
- The AVCC branch does not check its 1024-byte buffers: one set of more than 1020 bytes overruns one
  (OverrunBySet). Avcc.MakeCsd says for every record whether it does.

## Model

| member | source | states |
|---|---|---|
| StreamChunker.ConservationOverRuns | cmds/stagefright/stream.cpp:208-263 | for every interleaving, the bytes of all queued buffers in order, the filled part of the current one and the rest of the write are the bytes written; every buffer is in one place; iterations are bounded by the bytes asked for |
| StreamChunker.StepConserves | cmds/stagefright/stream.cpp:208-263 | each locked region keeps the invariant and the accepted bytes |
| StreamChunker.IterateStep | cmds/stagefright/stream.cpp:211-244 | one loop iteration moves at least one byte, keeps the order of bytes and leaves no full buffer behind |
| StreamChunker.AvailableStep | cmds/stagefright/stream.cpp:249-263 | a returned buffer is queued; at the end of the stream everything accepted goes out before the end is announced |
| StreamChunker.PartialBuffersOnlyAtEos | cmds/stagefright/stream.cpp:235-258 | without an end-of-stream notice only full buffers are sent |
| StreamChunker.BuffersInOrder | cmds/stagefright/stream.cpp:208-263 | for every interleaving, buffers are filled and sent in the order in which the listener returned them; the end is announced once for each notice of it, and a buffer that is not full is sent only right before that |
| StreamChunker.BlockedOnlyByListener | cmds/stagefright/stream.cpp:214-222 | the writer waits exactly when the listener holds every buffer, and any returned buffer frees it |
| StreamChunker.NoticedProceeds | cmds/stagefright/stream.cpp:214-253 | after a batch of returns that names a buffer the writer can go on |
| StreamChunker.AttemptsMoveBytes | cmds/stagefright/stream.cpp:211-244 | every attempt that does not wait moves at least one byte |
| StreamChunker.SessionCompletes | cmds/stagefright/stream.cpp:208-247 | with a buffer returned before each attempt and as many attempts as bytes, everything is written without waiting |
| StreamChunker.ConvertingStreamSource.constructor | cmds/stagefright/stream.cpp:160-201 | the listener starts with all buffers |
| StreamChunker.ConvertingStreamSource.Take | cmds/stagefright/stream.cpp:214-223 | the oldest queued buffer becomes the current one |
| StreamChunker.ConvertingStreamSource.CopyInto | cmds/stagefright/stream.cpp:232 | only the copied range of the shared buffer changes |
| StreamChunker.ConvertingStreamSource.Fill | cmds/stagefright/stream.cpp:225-233 | as much as fits is copied behind the bytes already there |
| StreamChunker.ConvertingStreamSource.DeliverIfFull | cmds/stagefright/stream.cpp:235-238 | a full buffer is queued with the listener |
| StreamChunker.ConvertingStreamSource.WriteIteration | cmds/stagefright/stream.cpp:211-244 | the fields and shared buffers follow the state machine through one iteration |
| StreamChunker.ConvertingStreamSource.OnBufferAvailable | cmds/stagefright/stream.cpp:249-263 | the fields follow the state machine when a buffer comes back |
| StreamChunker.ConvertingStreamSource.RunNotices | cmds/stagefright/stream.cpp:249-263 | a batch of returns follows the state machine |
| StreamChunker.ConvertingStreamSource.Attempt | cmds/stagefright/stream.cpp:211-244 | an attempt waits or copies, whatever the other thread did before it |
| StreamChunker.ConvertingStreamSource.WriteData | cmds/stagefright/stream.cpp:208-247 | the call is a run of the state machine; it waits exactly at the attempts that find every buffer lent, and returns the size asked for when a buffer comes back before each of as many attempts as bytes |
| OverlayThread.InvOverRuns | cmds/screenrecord/Overlay.cpp:58-132 | in every run, with stop at any time, an unsignalled waiting thread means a running overlay without a pending frame, and resources are held exactly while the thread waits |
| OverlayThread.HistoryTells | cmds/screenrecord/Overlay.cpp:58-132 | in every run the phase, the place of both threads, what they have been signalled and the frames processed are what the events so far say |
| OverlayThread.StarterReturnsIff | cmds/screenrecord/Overlay.cpp:74-90 | start returns at the first wakeup after a setup or a stop has come, at no other, and with an error exactly when no setup has succeeded |
| OverlayThread.BackwardStepIff | cmds/screenrecord/Overlay.cpp:69-131 | the steps that move the state backwards, against the promise in Overlay.h that it only advances |
| OverlayThread.BackwardRuns | cmds/screenrecord/Overlay.cpp:69-131 | a run for each kind of step back |
| OverlayThread.StopWithoutStart | cmds/screenrecord/Overlay.h:61-74 | in every run without start, a stop leaves the state STOPPING, and nothing but stop and start can happen |
| OverlayThread.DisciplinedRuns | cmds/screenrecord/Overlay.cpp:58-132 | when stop is called only on a running or stopping overlay, the state tells where the thread is |
| OverlayThread.ForwardOnly | cmds/screenrecord/Overlay.h:110-112 | in such runs the state at any moment is at most the state at any later one |
| OverlayThread.StoppedOnceScheduled | cmds/screenrecord/Overlay.cpp:92-132 | after a stop the thread stays signalled, and the next time it is scheduled it releases everything and ends |
| OverlayThread.FrameIsProcessed | cmds/screenrecord/Overlay.cpp:117-123 | a pending frame is processed by the next wakeup, also after a stop |
| OverlayThread.StopOnceIsDisciplined | cmds/screenrecord/Overlay.cpp:80-86 | one stop after a successful start is such a run, and the assertion in start holds |
| OverlayThread.DroppedTelescopes | cmds/screenrecord/Overlay.cpp:205-211 | the drop counter for every list of positive frame numbers, modulo its width |
| OverlayThread.DroppedIsGaps | cmds/screenrecord/Overlay.cpp:205-211 | the drop counter for every list of frame numbers is the sum of the gaps behind positive ones, modulo its width |
| OverlayThread.DroppedCountsSkipped | cmds/screenrecord/Overlay.cpp:205-211 | for increasing frame numbers it is the number of frames skipped |
| OverlayThread.Overlay.constructor | cmds/screenrecord/Overlay.h:40-49 | the initial fields |
| OverlayThread.Overlay.Start | cmds/screenrecord/Overlay.cpp:58-77 | start up to its first wait |
| OverlayThread.Overlay.StarterWake | cmds/screenrecord/Overlay.cpp:76-90 | start after a wait: whether it returns, and whether with an error |
| OverlayThread.Overlay.Stop | cmds/screenrecord/Overlay.cpp:92-98 | stop in any state |
| OverlayThread.Overlay.Setup | cmds/screenrecord/Overlay.cpp:100-115 | the first locked region of the thread, successful or not |
| OverlayThread.Overlay.Wake | cmds/screenrecord/Overlay.cpp:117-131 | one wakeup: a pending frame is processed, then the thread waits again or ends |
| OverlayThread.Overlay.ProcessFrame | cmds/screenrecord/Overlay.cpp:205-211 | the counters are those of all frames processed so far |
| OverlayThread.Overlay.OnFrameAvailable | cmds/screenrecord/Overlay.cpp:276-282 | the frame callback |
| OverlayThread.Overlay.ThreadLoop | cmds/screenrecord/Overlay.cpp:100-132 | the whole thread is a run of the state machine, interleaved with any calls of other threads |
| PlayerMessages.InvOverRuns | cmds/stagefright/SimplePlayer.cpp:107-272 | in every run there is exactly one message of the current generation while started and none otherwise, and all others are older |
| PlayerMessages.HistoryTells | cmds/stagefright/SimplePlayer.cpp:107-272 | in every run the phase, the codecs and the generation are what the messages so far say: a data source set, prepared since, started since, and how often playing has begun or ended |
| PlayerMessages.StartEffect | cmds/stagefright/SimplePlayer.cpp:173-204 | in every run a start leaves the player started unless it has no data source or cannot be prepared, and posts a message of a new generation exactly when it was not started before |
| PlayerMessages.ActsOnIff | cmds/stagefright/SimplePlayer.cpp:252-266 | which delivered messages are acted upon in every run: those of a started player whose stamp is a whole number of turns of the 32-bit counter old |
| PlayerMessages.OnlyWhileStarted | cmds/stagefright/SimplePlayer.cpp:252-266 | onDoMoreStuff runs only while started, in every run of any length |
| PlayerMessages.ParityOverRuns | cmds/stagefright/SimplePlayer.cpp:380-398 | the generation is odd exactly while started, and every posted stamp is odd |
| PlayerMessages.OnlyTheLiveMessage | cmds/stagefright/SimplePlayer.cpp:252-266 | with fewer than 2^32 start, stop and reset messages only the live message is acted upon |
| PlayerMessages.TwoChains | cmds/stagefright/SimplePlayer.cpp:252-266 | the bound is needed: a run after which two messages are acted upon and posted again |
| PlayerMessages.GenerationBound | cmds/stagefright/SimplePlayer.cpp:380-398 | the generation advances at most once a message |
| PlayerMessages.DeliveryEffect | cmds/stagefright/SimplePlayer.cpp:252-266 | the live message is posted again, a stale one is discarded for good |
| PlayerMessages.IncrementWraps | cmds/stagefright/SimplePlayer.cpp:382-394 | the int32 counter is the number of increments, wrapped |
| PlayerMessages.SimplePlayer.OnSetDataSource | cmds/stagefright/SimplePlayer.cpp:109-126 | state change; the reply code stays unassigned on success |
| PlayerMessages.SimplePlayer.OnPrepareMessage | cmds/stagefright/SimplePlayer.cpp:151-171 | prepares only when unprepared |
| PlayerMessages.SimplePlayer.OnStart | cmds/stagefright/SimplePlayer.cpp:380-390 | a new generation and its first message |
| PlayerMessages.SimplePlayer.OnStop | cmds/stagefright/SimplePlayer.cpp:392-398 | a new generation and no message |
| PlayerMessages.SimplePlayer.OnStartMessage | cmds/stagefright/SimplePlayer.cpp:173-204 | prepares if needed, then starts a stopped player |
| PlayerMessages.SimplePlayer.OnStopMessage | cmds/stagefright/SimplePlayer.cpp:206-227 | stops only a started player |
| PlayerMessages.SimplePlayer.OnResetMessage | cmds/stagefright/SimplePlayer.cpp:229-250 | stops and tears down |
| PlayerMessages.SimplePlayer.OnDoMoreStuffMessage | cmds/stagefright/SimplePlayer.cpp:252-266 | acts by comparing the wrapped generations |
| PlayerBuffers.TakeInputStep | cmds/stagefright/SimplePlayer.cpp:425-438 | a dequeued input buffer changes owner; all ownership and order invariants are kept |
| PlayerBuffers.FeedInputStep | cmds/stagefright/SimplePlayer.cpp:484-503 | a fed buffer goes back to its codec, which did not own it |
| PlayerBuffers.TakeOutputStep | cmds/stagefright/SimplePlayer.cpp:440-467 | a dequeued output buffer is listed whole behind the others; format and buffer changes keep the invariants |
| PlayerBuffers.GiveBackStep | cmds/stagefright/SimplePlayer.cpp:527-554 | a released buffer was not owned by the codec, is the oldest and is released once; what was written of it and what was left are its size |
| PlayerBuffers.ReleaseTimes | cmds/stagefright/SimplePlayer.cpp:521-532 | a buffer goes back only later than 10 ms before its time, and dropped exactly when later than 30 ms after it |
| PlayerBuffers.PlayHeadStep | cmds/stagefright/SimplePlayer.cpp:534-545 | where the check holds, rendering audio writes the next bytes of the buffer, the track takes exactly those, and a rest is left only when the track is full |
| PlayerBuffers.PlayHeadInOrder | cmds/stagefright/SimplePlayer.cpp:617-648 | the bytes of each buffer go to the audio track once, in order and without a gap from the offset offered, and a listed buffer is the rest of the one offered |
| PlayerBuffers.Player.PlayDue | cmds/stagefright/SimplePlayer.cpp:534-545 | a due audio buffer: the process ends exactly when it ends in a partial frame for which there is room |
| PlayerBuffers.Player.Collect | cmds/stagefright/SimplePlayer.cpp:422-467 | everything a codec offers is listed in order, no buffer is lost, and the audio track is the one of the last audio format reported |
| PlayerBuffers.Player.CollectInputs | cmds/stagefright/SimplePlayer.cpp:425-438 | input buffers are appended in the order offered and leave the codec |
| PlayerBuffers.Player.CollectOutputs | cmds/stagefright/SimplePlayer.cpp:440-467 | output buffers are recorded in the order offered, and an audio format makes a new, empty track with its counters at zero |
| PlayerBuffers.Player.CollectAll | cmds/stagefright/SimplePlayer.cpp:422-467 | the same for all tracks |
| PlayerBuffers.Player.FeedOne | cmds/stagefright/SimplePlayer.cpp:478-509 | one sample goes to its track in the oldest buffer |
| PlayerBuffers.Player.Feed | cmds/stagefright/SimplePlayer.cpp:470-510 | samples go out once, in order, each in the oldest buffer of its track, until the next one has no buffer; nothing else of a track changes |
| PlayerBuffers.Player.RenderTrack | cmds/stagefright/SimplePlayer.cpp:521-564 | late buffers are dropped, due ones rendered once fully written, in order and from where the last write ended, and none is lost; it stops only when nothing more can be done, or at a failing check, which buffers of whole frames never cause |
| PlayerBuffers.Player.RenderAll | cmds/stagefright/SimplePlayer.cpp:512-566 | the same for all tracks |
| PlayerBuffers.Player.DoMoreStuff | cmds/stagefright/SimplePlayer.cpp:420-569 | the three loops together keep the buffers, their ownership and order and the bytes of each in order, use the input buffers of each track in the order listed, and end with nothing more to do or at a failing check |
| PlayerBuffers.Player.RestartClock | cmds/stagefright/SimplePlayer.cpp:383 | a start makes the presentation times count anew |
| AudioRing.SpaceSurvivesWrapping | cmds/stagefright/SimplePlayer.cpp:611-614 | the free space computed from wrapped counters is the real one |
| AudioRing.RenderStep | cmds/stagefright/SimplePlayer.cpp:602-650 | what fits the real free space is copied, the bound is kept, and the bytes taken are those of the frames counted |
| AudioRing.Write | media/libmedia/AudioTrack.cpp:1424-1452 | the track takes all whole frames of what it is given and no partial one, whatever buffers it obtains |
| AudioRing.RenderAudio | cmds/stagefright/SimplePlayer.cpp:602-650 | whether the call returns, the counters it leaves and the bytes left over |
| AudioRing.PassesIff | cmds/stagefright/SimplePlayer.cpp:617-634 | the check on the bytes written holds exactly for whole frames or a buffer that fills the track |
| AudioRing.FullAfterPartial | cmds/stagefright/SimplePlayer.cpp:618-648 | if not all of a buffer fits, the check holds and the track is full |
| AudioRing.RestIsWhole | cmds/stagefright/SimplePlayer.cpp:631-648 | a buffer of whole frames passes the check and leaves whole frames |
| AudioRing.RingBounded | cmds/stagefright/SimplePlayer.cpp:602-650 | over every sequence of calls that return and of playback, whatever the sizes, written minus played modulo 2^32 is within the track, and the bytes taken are the frames counted |
| AudioRing.WholeFramesPass | cmds/stagefright/SimplePlayer.cpp:617-634 | after every run a call with whole frames returns |
| VendorTags.Tabulate | camera/VendorTagDescriptor.cpp:81-113 | succeeds exactly when every tag is valid, and fills the maps and the sorted section table |
| VendorTags.BuildIndices | camera/VendorTagDescriptor.cpp:115-133 | section indices into the finished table and the reverse index |
| VendorTags.CreateFromOps | camera/VendorTagDescriptor.cpp:58-137 | when it succeeds, and that the descriptor reports what the operations reported |
| VendorTags.ReverseFindsLast | camera/VendorTagDescriptor.cpp:126-132 | the reverse index finds the last tag listed with a name and section |
| VendorTags.LookupAgrees | camera/VendorTagDescriptor.cpp:331-348 | a tag found has that name and section, and failing means that no tag has them |
| VendorTags.LookupOwnName | camera/VendorTagDescriptor.cpp:331-348 | a tag whose name and section are its own is found itself |
| VendorTags.GettersAgree | camera/VendorTagDescriptor.cpp:252-289 | the getters report what the operations reported for exactly the tags listed |
| VendorTags.GetTagArray | camera/VendorTagDescriptor.cpp:260-265 | the array holds the tags in ascending order and is otherwise unchanged |
| VendorTagParcel.WriteToParcel | camera/VendorTagDescriptor.cpp:291-325 | the parcel written |
| VendorTagParcel.CreateFromParcel | camera/VendorTagDescriptor.cpp:139-250 | the descriptor or error read |
| VendorTagParcel.ReadTagsMeans | camera/VendorTagDescriptor.cpp:166-200 | for every parcel: the tags are read exactly when the four items of each are there and valid, the first bad one decides the error, and each tag has what its last four items say |
| VendorTagParcel.ReadMeans | camera/VendorTagDescriptor.cpp:139-250 | for every parcel that is read: tags, names, types and indices are those of its items, the sections are the names behind them, sorted, and a lookup finds the tag that comes last |
| VendorTagParcel.TableErrors | camera/VendorTagDescriptor.cpp:202-213 | a section table is a bad value exactly when its number of names is too small |
| VendorTagParcel.ReadBack | camera/VendorTagDescriptor.cpp:139-325 | reading back gives everything, with the reverse index rebuilt in ascending order |
| VendorTagParcel.RoundTripSucceedsIff | camera/VendorTagDescriptor.cpp:139-325 | reading back succeeds exactly without repeated tags and empty names, zero tags included |
| VendorTagParcel.RoundTripIdentityIff | camera/VendorTagDescriptor.cpp:139-325 | the same descriptor comes back exactly when colliding tags list the largest last |
| VendorTagParcel.RepeatedTagFails | camera/VendorTagDescriptor.cpp:166-219 | a repeated tag makes the parcel unreadable |
| VendorTagParcel.MissingNameFails | camera/VendorTagDescriptor.cpp:185-228 | so does an empty name or section name |
| VendorTagParcel.ReadsOutsideIff | camera/VendorTagDescriptor.cpp:204-238 | for every parcel whose tags and section names are read, the reader looks outside its section table exactly when a tag has an index not below the number of distinct names, and succeeds otherwise |
| VendorTagParcel.ReadsOutsideOnlyThen | camera/VendorTagDescriptor.cpp:139-250 | every parcel that makes it look outside is of that kind |
| VendorTagParcel.DistinctNamesStayInside | camera/VendorTagDescriptor.cpp:209-238 | distinct names and indices below 2^32-1 never lead outside |
| VendorTagParcel.RepeatedSectionName | camera/VendorTagDescriptor.cpp:209-238 | a parcel with a repeated section name that leads outside |
| VendorTagParcel.LargestIndexWraps | camera/VendorTagDescriptor.cpp:209-238 | a parcel with one name and the largest index that leads outside, because adding one to the index gives 0 |
| VendorTagParcel.LookupAfterTrip | camera/VendorTagDescriptor.cpp:331-348 | after the trip the largest tag with a name and section is found |
| VendorTagParcel.ReverseIndexMayChange | camera/VendorTagDescriptor.cpp:236-246 | a descriptor whose lookup changes over the trip |
| MetadataStore.ResizeGrows | camera/CameraMetadata.cpp:391-430 | entries are kept, a capacity that is too small becomes twice what is needed and so more than doubles, none shrinks, and there is room |
| MetadataStore.StatusIs | camera/CameraMetadata.cpp:72-384 | the status of every operation in every run |
| MetadataStore.UpdateStep | camera/CameraMetadata.cpp:280-324 | an update always succeeds and replaces or adds one entry |
| MetadataStore.AppendStep | camera/CameraMetadata.cpp:142-152 | an append always succeeds and concatenates |
| MetadataStore.EraseStep | camera/CameraMetadata.cpp:352-383 | an erase takes the first entry with the tag out and changes nothing else, and a missing tag is no error |
| MetadataStore.SpaceOverRuns | camera/CameraMetadata.cpp:142-152 | in every run nothing fails for lack of space, and reallocations are logarithmic in the capacities |
| MetadataStore.RefinementStep | camera/CameraMetadata.cpp:280-383 | each operation is one on a plain map, except exactly erasing a tag stored twice |
| MetadataStore.RefinementOverRuns | camera/CameraMetadata.cpp:142-383 | through every sequence with disjoint appends the container is the plain map |
| MetadataStore.LookupUpdated | camera/CameraMetadata.cpp:280-357 | find after update |
| MetadataStore.LookupAppended | camera/CameraMetadata.cpp:142-152 | find after append prefers the entries already there |
| MetadataStore.LookupDeletedTag | camera/CameraMetadata.cpp:358-383 | erasing removes a tag exactly when it was stored once |
| MetadataStore.SharedTagResurfaces | camera/CameraMetadata.cpp:142-383 | a tag stored twice by an append resurfaces |
| MetadataStore.LockedIsFrozen | camera/CameraMetadata.cpp:77-94 | nothing changes while locked, until the right pointer is given back |
| MetadataObject.CameraMetadata.ResizeIfNeeded | camera/CameraMetadata.cpp:389-425 | a larger buffer with the same entries replaces the present one |
| MetadataObject.CameraMetadata.Update | camera/CameraMetadata.cpp:188-324 | state and status of an update |
| MetadataObject.CameraMetadata.EraseTag | camera/CameraMetadata.cpp:358-383 | state and status of an erase |
| MetadataObject.CameraMetadata.Append | camera/CameraMetadata.cpp:142-152 | state and status of an append, also of a buffer to itself when it need not grow |
| MetadataObject.CameraMetadata.GetAndLock | camera/CameraMetadata.cpp:77-80 | locks and hands out the pointer |
| MetadataObject.CameraMetadata.Unlock | camera/CameraMetadata.cpp:82-94 | unlocks only with the same pointer |
| MetadataObject.CameraMetadata.Release | camera/CameraMetadata.cpp:96-104 | gives the buffer up unless locked |
| MetadataObject.CameraMetadata.Acquire | camera/CameraMetadata.cpp:117-128 | takes a buffer over unless locked |
| MetadataObject.CameraMetadata.AcquireFrom | camera/CameraMetadata.cpp:130-136 | the buffer moves exactly when neither is locked; a locked source costs the target its own |
| MetadataObject.CameraMetadata.Swap | camera/CameraMetadata.cpp:657-672 | both buffers change places, or nothing happens |
| MetadataBlob.AlignToIsNextMultiple | camera/CameraMetadata.cpp:28-29 | the bit trick gives the next multiple of the alignment |
| MetadataBlob.WriteToParcel | camera/CameraMetadata.cpp:518-611 | what is in the parcel, for every address of the blob |
| MetadataBlob.Layout | camera/CameraMetadata.cpp:560-601 | the metadata is inside the blob at its first aligned address |
| MetadataBlob.ReadFromParcel | camera/CameraMetadata.cpp:427-516 | no metadata exactly for a size of zero; the bytes at the offset exactly for a parcel laid out for the alignment with valid bytes; an error otherwise |
| MetadataBlob.RoundTripIff | camera/CameraMetadata.cpp:427-611 | identical metadata comes back exactly when it is not empty and the blob size fits an int32 |
| MetadataBlob.NullTravelsAsNull | camera/CameraMetadata.cpp:447-546 | no metadata comes back as none |
| MetadataBlob.HugeBlobReadsAsNull | camera/CameraMetadata.cpp:447-561 | metadata is taken for none exactly when its blob size is a multiple of 2^32 |
| MetadataBlob.ReaderAlignedIff | camera/CameraMetadata.cpp:488-494 | when the reader copies from an aligned address |
| LineBreak.Font.ComputeScaledStringWidth | cmds/screenrecord/TextRenderer.cpp:167-177 | the width of a prefix |
| LineBreak.Font.WidthOfNext | cmds/screenrecord/TextRenderer.cpp:158-177 | each character adds the width of its own glyph without two pixels, or that of the question mark when it has none |
| LineBreak.Font.BreakString | cmds/screenrecord/TextRenderer.cpp:316-358 | no break exactly for an empty or fitting string; otherwise the last whitespace not past the longest fitting prefix, or that prefix |
| LineBreak.Font.CutOff | cmds/screenrecord/TextRenderer.cpp:293-300 | splitting in place draws the piece and leaves the string as it was |
| LineBreak.Font.NextPiece | cmds/screenrecord/TextRenderer.cpp:283-308 | one iteration draws the rest or a cut piece and moves past one whitespace character |
| LineBreak.Font.DrawPieces | cmds/screenrecord/TextRenderer.cpp:276-312 | the pieces with the skipped whitespace are the string; every piece but the last is cut at the chosen break; the last is empty exactly when the last line starts at the end; the loop runs past the end exactly when the last line starts at the last character and that is wider than the line |
| LineBreak.Font.DrawWrappedString | cmds/screenrecord/TextRenderer.cpp:251-315 | nothing without room, otherwise the wrapped string from the clamped position, the position below its last line, and when the loop runs past the end |
| LineBreak.Font.NarrowTextFits | cmds/screenrecord/TextRenderer.cpp:251-358 | with every character narrower than the indented line every piece fits and the loop ends inside the string |
| LineBreak.Font.RightBorder | cmds/screenrecord/TextRenderer.cpp:280-308 | every piece of more than one character ends before the right border, and a piece is cut off only when what was left would pass it |
| LineBreak.Font.LayoutBorders | cmds/screenrecord/TextRenderer.cpp:262-282 | the borders on three sides and the indentation |
| LineBreak.Font.AllCutAt | cmds/screenrecord/TextRenderer.cpp:283-308 | each piece is cut off what the ones before it left |
| LineBreak.Font.DrawnAt | cmds/screenrecord/TextRenderer.cpp:280-310 | where a piece is drawn, that it fits or is one character, and what is skipped after it |
| LineBreak.Font.TrailingSpaceDrawsEmptyLine | cmds/screenrecord/TextRenderer.cpp:320-324 | a string that fits but for a last space is drawn as two lines, the second empty |
| LineBreak.Font.LastLineIff | cmds/screenrecord/TextRenderer.cpp:276-358 | for every text and layout, from where its last line starts: when the last piece is empty and when the last character is drawn too wide |
| LineBreak.Font.EmptyLineIff | cmds/screenrecord/TextRenderer.cpp:276-324 | an empty line is drawn exactly when the last line starts at the end of the text |
| LineBreak.Font.ShortTextEmptyLineIff | cmds/screenrecord/TextRenderer.cpp:276-324 | for a string that fits except for its last character: exactly when that character is whitespace and the whole is too wide |
| LineBreak.Font.EmptyPieces | cmds/screenrecord/TextRenderer.cpp:276-324 | only the last piece can be empty, and when |
| LineBreak.Font.DrawWideCharacter | cmds/screenrecord/TextRenderer.cpp:276-312 | one character wider than the line makes the loop run past the end |
| LineBreak.LineTopIs | cmds/screenrecord/TextRenderer.cpp:310 | lines are one glyph height apart |
| GlyphTexture.InitXOffset | cmds/screenrecord/TextRenderer.cpp:43-58 | the offset of a glyph is the room its predecessors in the row take |
| GlyphTexture.NextOffset | cmds/screenrecord/TextRenderer.cpp:43-58 | the next glyph of a row is one pixel behind the end of the one before, and a new row starts at 0 |
| GlyphTexture.GlyphsDoNotOverlap | cmds/screenrecord/TextRenderer.cpp:44-47 | glyphs of a row do not overlap and have a pixel between them |
| GlyphTexture.PowerOfTwoCeil | cmds/screenrecord/TextRenderer.cpp:65-76 | the least power of two not below the value, or 0 |
| ParameterText.RoundTripIff | camera/CameraParameters2.cpp:37-88 | parsing a printed list gives it back exactly without '=' in a key and ';' in a value |
| ParameterText.ParseClean | camera/CameraParameters2.cpp:59-88 | parsing any text gives only such lists |
| ParameterText.FlattenAfterUnflattenIsStable | camera/CameraParameters2.cpp:37-88 | printing what was parsed is stable |
| ParameterText.Flatten | camera/CameraParameters2.cpp:37-57 | the printed form of a list |
| ParameterText.NextPair | camera/CameraParameters2.cpp:66-87 | one turn of the parser |
| OrderedParameters.CameraParameters2.IndexOfKey | include/camera/CameraParameters2.h:142-151 | the first entry with a key |
| OrderedParameters.CameraParameters2.RemoveKey | camera/CameraParameters2.cpp:179-182 | the first entry with the key goes, a missing key changes nothing |
| OrderedParameters.CameraParameters2.SetValue | camera/CameraParameters2.cpp:92-108 | text with separators is refused, otherwise the entry is removed and added at the end |
| OrderedParameters.CameraParameters2.GetValue | camera/CameraParameters2.cpp:124-132 | the value of the first entry |
| OrderedParameters.CameraParameters2.FlattenAll | camera/CameraParameters2.cpp:37-57 | the text parses back to the list |
| OrderedParameters.CameraParameters2.Unflatten | camera/CameraParameters2.cpp:59-89 | the list is the parsed text |
| OrderedParameters.CameraParameters2.CompareSetOrder | camera/CameraParameters2.cpp:149-177 | error codes, and the order of two keys |
| OrderedParameters.CameraParameters2.SetPreviewSize | camera/CameraParameters2.cpp:235-240 | the pair printed, and read back unless the key was repeated |
| OrderedParameters.CameraParameters2.GetPreviewSize | camera/CameraParameters2.cpp:242-249 | the pair parsed, or -1 twice |
| OrderedParameters.CleanOverRuns | camera/CameraParameters2.cpp:59-182 | "no '=' in a key, no ';' in a value" is kept by every history |
| OrderedParameters.EveryRunRoundTrips | camera/CameraParameters2.cpp:37-182 | after every history a flatten and unflatten gives the same list, so the same values and comparisons |
| OrderedParameters.OrderIsTimeOfLastSet | camera/CameraParameters2.cpp:105-177 | after every history of set and remove, two keys compare by the time of their last accepted set |
| OrderedParameters.ValueIsOfLastSet | camera/CameraParameters2.cpp:92-132 | and have the value given by it |
| OrderedParameters.SetIsFoundIff | include/camera/CameraParameters2.h:142-171 | the entry set is the one found exactly if the key was there at most once |
| OrderedParameters.RemoveIsCompleteIff | include/camera/CameraParameters2.h:153-161 | a removed key is gone exactly if it was there at most once |
| OrderedParameters.ReadRepeatedKey | camera/CameraParameters2.cpp:77-86 | a text with a repeated key gives two entries |
| OrderedParameters.RepeatedKeyHidesSet | include/camera/CameraParameters2.h:142-171 | then a set has no visible effect |
| OrderedParameters.RepeatedKeyBreaksOrder | include/camera/CameraParameters2.h:153-197 | from every list with a repeated key some history breaks the order |
| OrderedParameters.PairSetIsRead | camera/CameraParameters2.cpp:185-249 | a pair that was set is read back |
| OrderedParameters.NoPairIsMinusOne | camera/CameraParameters2.cpp:242-249 | a missing key and a text that is no pair read as -1 twice |
| SortedParameters.PutAllKeepsLast | camera/CameraParameters.cpp:205-235 | when a text repeats a key its last value is kept |
| SortedParameters.VectorRoundTripIff | camera/CameraParameters.cpp:185-235 | the round trip for the sorted map, exactly without the separators |
| SortedParameters.SameMappingSameText | camera/CameraParameters.cpp:185-203 | the text does not depend on the order of the sets |
| SortedParameters.EveryRunRoundTrips | camera/CameraParameters.cpp:185-294 | after every history a flatten and unflatten restores the same parameters |
| SortedParameters.PutCorrect | camera/CameraParameters.cpp:238-252 | adding a key replaces its value and keeps the order |
| SortedParameters.RemoveCorrect | camera/CameraParameters.cpp:291-294 | removing a key removes only it |
| SortedParameters.PairSetIsRead | camera/CameraParameters.cpp:297-361 | a pair that was set is the only value of its key and is read back |
| SortedParameters.CameraParameters.SetValue | camera/CameraParameters.cpp:238-252 | an accepted set is mapped, a refused one changes nothing |
| SortedParameters.CameraParameters.RemoveKey | camera/CameraParameters.cpp:291-294 | the key is gone |
| SortedParameters.CameraParameters.GetValue | camera/CameraParameters.cpp:268-274 | the value, and none for a missing or empty one |
| SortedParameters.CameraParameters.FlattenAll | camera/CameraParameters.cpp:185-203 | the text restores the map |
| SortedParameters.CameraParameters.Unflatten | camera/CameraParameters.cpp:205-235 | the map holds the last value of each key in the text |
| SortedParameters.CameraParameters.SetPreviewSize | camera/CameraParameters.cpp:347-352 | the pair printed |
| SortedParameters.CameraParameters.GetPreviewSize | camera/CameraParameters.cpp:354-361 | the pair parsed, or -1 twice |
| SizeText.PairOfPrinted | camera/CameraParameters2.cpp:185-208 | parse_pair reads back a printed pair and stops after it |
| SizeText.ExamplePair | camera/CameraParameters2.cpp:184-208 | the example of the comment, 640x480 |
| SizeText.StrtolOfDecimal | camera/CameraParameters2.cpp:185-200 | strtol reads back a printed number |
| SizeText.StrtolOfDigits | camera/CameraParameters2.cpp:185-200 | strtol skips white space, takes one sign and all digits, and stops at the nearest long |
| SizeText.SizesOfPrinted | camera/CameraParameters2.cpp:210-233 | a printed list is read back, and what follows it after a comma only adds to it |
| SizeText.ParsePair | camera/CameraParameters2.cpp:185-208 | what is read and where reading stops |
| SizeText.ParseSizesList | camera/CameraParameters2.cpp:210-233 | the sizes up to the first bad entry |
| SizeText.PrintedPairFits | camera/CameraParameters2.cpp:235-240 | the printed pair fits its buffer of 32 characters |
| SizeText.MissingNumbersAreZero | camera/CameraParameters2.cpp:185-200 | a missing number reads as 0, so a delimiter alone is accepted as a pair |
| Avcc.EncodedIsRecord | cmds/stagefright/sf2.cpp:325-390 | every encoded record is one, whatever follows it |
| Avcc.RecordUnique | cmds/stagefright/sf2.cpp:325-390 | data determines its parameter sets |
| Avcc.CopySets | cmds/stagefright/sf2.cpp:348-367 | the buffer is exactly the start-code-prefixed sets in order; when a check fails; when the buffer is overrun |
| Avcc.MakeCsd | cmds/stagefright/sf2.cpp:324-400 | both buffers of a record, consumed plus remaining is its size, and for all data which outcome there is |
| Avcc.OverrunBySet | cmds/stagefright/sf2.cpp:345-367 | one set of more than 1020 bytes overruns the buffer |
| EosLoop.InvOverRuns | cmds/stagefright/codec.cpp:154-286 | whatever the codecs answer, each track gets its samples once and in order, then at most one end; counters are sums; the loop is left only when every track has reported its end |
| EosLoop.DecodedIs | cmds/stagefright/codec.cpp:240-275 | in every run what was drained from a track are its codec's output buffers in order, through the first that ends the output, and the counters are their number and bytes; told from the answers alone |
| EosLoop.CompleteIff | cmds/stagefright/codec.cpp:154-286 | a track was given all its samples and one end exactly when, in some iteration up to the exit test, its codec had an input buffer after the end of the samples was found; both are told from the codecs' answers |
| EosLoop.LeftIff | cmds/stagefright/codec.cpp:227-239 | the loop is left exactly when every codec has reported its end in an earlier iteration |
| EosLoop.RoundKeeps | cmds/stagefright/codec.cpp:155-285 | one iteration keeps this |
| EosLoop.CompleteWhenFinished | cmds/stagefright/codec.cpp:154-286 | with codecs that end after their input, every track got all its samples and one end |
| EosLoop.EagerCodecsFinish | cmds/stagefright/codec.cpp:154-286 | with eager codecs the loop is left after at most three iterations more than samples |
| EosLoop.EarlyEndStopsTheLoop | cmds/stagefright/codec.cpp:227-238 | a codec that ends by itself stops the loop early |
| EosLoop.FeedInput | cmds/stagefright/codec.cpp:157-225 | the input half of an iteration |
| EosLoop.Iterate | cmds/stagefright/codec.cpp:155-285 | one iteration follows the specification |
| EosLoop.Decode | cmds/stagefright/codec.cpp:152-286 | the loop is a run of the specification, keeps the invariant, and counts the output buffers and bytes that the codecs answered with |
| Trimming.Muxing | cmds/stagefright/muxer.cpp:150-196 | for every sample list exactly the samples of open runs are written, each shifted by the start of its run |
| Trimming.NothingTrimmed | cmds/stagefright/muxer.cpp:187-191 | with trimming off the output is the input |
| Trimming.TrimmedToWindow | cmds/stagefright/muxer.cpp:166-191 | with nondecreasing times the output is one run from the first sync sample in the window to the last sample not past its end, starting at 0 |
| Trimming.NothingInWindow | cmds/stagefright/muxer.cpp:171-178 | without a sync sample in the window nothing is written |
| Trimming.SingleSample | cmds/stagefright/muxer.cpp:171-191 | the bounds of the window: later than the start, not later than the end |
| Trimming.TrimmedIsOneRun | cmds/stagefright/muxer.cpp:166-191 | for every list with nondecreasing times the output is one shifted window, empty exactly when no sample opens a run |
| Trimming.ContiguousIff | cmds/stagefright/muxer.cpp:171-191 | what is written is contiguous exactly when no run is followed by a sample past the end and then by one that opens |
| Trimming.SameRunSameShift | cmds/stagefright/muxer.cpp:173-191 | all samples of a run are shifted by the same time |
| Trimming.SecondRunRestarts | cmds/stagefright/muxer.cpp:171-184 | with reordered times a second run restarts at 0 |
| FrameMonitor.FramesAreConserved | camera/ProCamera.cpp:314-362 | in every interleaving, frames returned plus frames counted are the frames that arrived, and a successful wait returns some |
| FrameMonitor.StepIs | camera/ProCamera.cpp:314-420 | what each event does to every counter, the flag and the waiting threads |
| FrameMonitor.FailureConsumesNothing | camera/ProCamera.cpp:332-350 | in every run a call that waits and fails, after any events in between, leaves the state of the same run without that call: frames, flag, other threads and what they were given |
| FrameMonitor.NoWakeupIsLost | camera/ProCamera.cpp:324-362 | a waiting thread whose frame or result is there has been signalled |
| FrameMonitor.FlagIsOfLastResult | camera/ProCamera.cpp:394-420 | the flag is cleared only by a thread that had to wait |
| FrameMonitor.OneResultManyReturns | camera/ProCamera.cpp:398-400 | one result satisfies any number of calls |
| FrameMonitor.ProCamera.OnFrameAvailable | camera/ProCamera.cpp:324-329 | the frame callback |
| FrameMonitor.ProCamera.OnResultReceived | camera/ProCamera.cpp:105-110 | the result callback |
| FrameMonitor.ProCamera.TakeFrames | camera/ProCamera.cpp:338-356 | all frames of the stream are taken at once |
| FrameMonitor.ProCamera.WaitForFrameBuffer | camera/ProCamera.cpp:332-343 | returns the frames there, or waits exactly when there are none |
| FrameMonitor.ProCamera.FrameBufferWoken | camera/ProCamera.cpp:344-358 | the loop after a wakeup |
| FrameMonitor.ProCamera.WaitForFrameMetadata | camera/ProCamera.cpp:394-400 | returns without clearing the flag, or waits |
| FrameMonitor.ProCamera.MetadataWoken | camera/ProCamera.cpp:401-416 | clears the flag after a wait |

## Left out

- Binder proxies and stubs (`ICamera*`, `IProCamera*`, `ISoundTrigger*`, `IDrm*`): marshalling of fixed fields over a parcel that is not part of this model.
- `Camera.cpp`, `CameraBase.cpp`, `SoundTrigger.cpp` and `drm/common`: null checks, service polling, forwarding and file access.
- Argument parsing, processes, signals, encoders, EGL windows, shaders, GL calls and pixel data of the tools: foreign calls.
- `dump` functions, logging, float formatting and parsing (`%g`, `strtof`), allocation failure, real clocks and timeouts.
- The internals of `camera_metadata`, `MediaCodec`, `MediaMuxer`, `NuMediaExtractor` and `MPEG2TSWriter`.
- Frame counters of ProCamera beyond 2^31 undelivered frames, and streams deleted or added while a thread waits: adding one may move the vector that the waiting thread's reference `si` points into (`camera/ProCamera.cpp:336`).
- A write to the transport stream whose size exceeds the range of `ssize_t`.
- `CHECK` failures on unexpected codec errors end the process; the loops over codecs have no step for them.
- Track selection and the start time correction before the muxer's loop, and the format fields besides the codec-specific data in `makeFormat`.
- The global vendor tag descriptor and its C callbacks.
- SimplePlayer's surface handling and the contents of its extractor and codecs.
- The comparison `previewFormatToEnum` and the named constants of CameraParameters: plain tables.
- VendorTagParcel.CreateFromParcel: reports failures of its own where the source reads outside its section vector, which is undefined (SectionOutOfRange), and where its check on the capacity ends the process (CapacityNotPositive).
- MetadataObject.CameraMetadata.Acquire: does not model acquiring the object's own buffer, which the source frees first and then keeps.
- MetadataObject.CameraMetadata.Append: does not model appending a buffer to itself when it has to grow, because the source then reads the buffer it has freed.
- MetadataObject.CameraMetadata.AcquireFrom: does not model two objects that hold one buffer, which the first of them to clear would free.
- EosLoop.Decode: stops when its list of answers ends, because a codec may never end its output.
- StreamChunker.ConvertingStreamSource.WriteData: stops when its schedule of the other thread ends, because a listener may never return a buffer.
- OverlayThread.Overlay.ThreadLoop: stops when its schedule ends, because nobody may ever stop the overlay.
