# Remote-desktop host and relay: verified model

This project models the protocols and algorithms of a remote-desktop host and its relay, and proves
what they are for.

* **Connection** (`IpcFraming`, `IpcConn`, `IpcFairness`, `IpcWriter`). Worker and transport talk over
  one socket. Producers queue messages on three lanes, interactive, bulk and droppable video, and one
  writer drains them. The connection is a step system whose actions are the channel operations and the
  socket writes; its runs are all interleavings and all choices a `select` may make. The class `Conn`
  moves exactly by these actions.
* **File transfer** (`Base64`, `FileReceiver`, `FileReceiverProof`, `FileReceiverProps`,
  `FileReceiverCounts`, `FileReceiverAlone`, `FileReceiverCode`, `FileSender`, `FileTransfer`). A receiver
  handles many transfers into one folder. It refines one private receiver per id, and it is composed with
  the senders and the connection: from the reads of the sender's loop to the bytes in the receiver's
  folder, a file arrives byte for byte exactly when it was read whole, nothing was refused on the way and
  its offer arrives first.
* **Dirty rectangles** (`Grid`, `DirtyRects`, `FrameDiff`). Block comparison, a breadth-first walk over
  4-connected components on arrays, tight boxes, clamping, and cutting out a rectangle by copies that
  overrun.
* **Recording** (`Ebml`, `WebM`, `Recorder`, `RecorderBytes`, `RecorderCode`). A WebM writer with a
  parser written from the format (sections 4 and 6 of RFC 8794, section 10 of RFC 9559) as its inverse,
  for whole files, for files cut at any byte and for recordings in which writes failed.
* **Clipboard** (`ClipImage`, `ClipFiles`, `ClipSender`, `ClipAssembly`, `ClipDelivery`, `ClipCode`).
  Chunked pictures and files under arbitrary, stale or mixed message sequences, from the sender's reads
  to what the receiver's folder holds when the files are put on the clipboard.
* **Lockout** (`Lockout`), **privacy lease** (`Privacy`), **Opus framing** (`OpusFraming`) and the
  **env file** (`EnvFile`, `EnvFileCode`).

State that the program changes in place is a class here; each method's contract ties the new state to a
specification function of the old one, and the theorems are about runs of that function.

Where the code does less than its comments say, the model follows the code:

* A comment promises a new cluster on each keyframe (`agent/record/webm.go:167-168`); the condition
  starts one only when the span is over (`Recorder.KeyframesStartNoCluster`).
* The lanes do not order an offer before its data (`FileTransfer.OfferOvertaken`), so a transfer
  arrives exactly when the offer happens to come first (`FileTransfer.WholeArrivesIff`).
* A name search that runs out of names re-uses the plain name and empties that file, whoever owns it. A
  transfer whose file was emptied or shared is still answered saved (`FileReceiverProps.SavedEmptyRun`,
  `FileReceiverProps.SharedFileRun`); the exact conditions are in `FileReceiverProof.OwnedOfferIff`,
  `FileReceiverAlone.AloneSinceIff` and `FileReceiverAlone.SavedStaysIff`. What the receiver counts and
  answers does not depend on it (`FileReceiverCounts.EachCountedAlone`).
* An offer that re-uses an open id leaves a file behind (`FileReceiverProps.ReofferLeaksFile`), for good
  unless names run out (`FileReceiverProps.FolderTidyIff`).
* Indices outside an announcement are counted as files of it, so it may end with its own files still open
  (`ClipAssembly.EndedByStrangers`); exactly when is in `ClipAssembly.EndsWholeIff`.
* Clipboard files share one folder under their bare names, so of two files of one name only the last
  is left, while both are put on the clipboard (`ClipDelivery.SameNameLost`); the exact condition is in
  `ClipDelivery.StagedFilesOwnIff`.
* A cluster counts as open although its head was not written, and later frames get wrong times or lie in
  no cluster (`RecorderBytes.LostHead`). The caller stops the recording at the first failed write
  (`agent/session/hostrecord.go:95-107`), and then the file stays playable
  (`RecorderBytes.StoppedAtFailure`).
* A rectangle with a negative corner is moved and not cut (`FrameDiff.CutIsIntersectionIff`).
* A line longer than the reader's buffer makes the whole env file unreadable (`EnvFile.RoundTripIff`).

`dafny verify dfyconfig.toml` checks the project.

## Model

| member | source | states |
|---|---|---|
| `IpcFraming.Frame` | agent/ipc/ipc.go:249-258 | a frame is built in a fresh buffer exactly for payloads of at most 33554432 bytes: four bytes of length, lowest first, which count the kind byte, then kind and payload |
| `IpcFraming.Stream.ReadFull` | agent/ipc/ipc.go:349-361 | takes exactly the bytes asked for, or reports an empty stream and a cut one apart |
| `IpcFraming.Stream.Read` | agent/ipc/ipc.go:349-366 | reads one frame, with every error of the reader, and leaves exactly what follows it; a length is bad exactly when it is 0 or over 33554433 |
| `IpcFraming.ReadEncoded` | agent/ipc/ipc.go:249-366 | framing round trip: a frame is read back whole whatever bytes follow it |
| `IpcFraming.ReadCutFrame` | agent/ipc/ipc.go:349-366 | a frame cut anywhere gives no message and no bad length; it looks like a clean end exactly when cut before or right after its header |
| `IpcFraming.ParseCut` | agent/ipc/ipc.go:349-366 | a stream of frames cut at any byte gives back every frame before the cut and nothing else |
| `IpcFraming.ParseWire` | agent/ipc/ipc.go:349-366 | a whole stream gives back the list of messages |
| `IpcConn.ReliableLane` | agent/ipc/ipc.go:192-291 | in every run, what was queued on hi or bulk is what the writer took followed by what is still queued |
| `IpcConn.ReliableLaneSplit` | agent/ipc/ipc.go:192-291 | the same with the writer's part split into written and in flight: nothing is lost, repeated or reordered |
| `IpcConn.VideoLane` | agent/ipc/ipc.go:296-315 | in every run, video frames taken and queued are an in-order selection of those queued, and every missing one was counted as dropped |
| `IpcConn.PeerReadsInterleaving` | agent/ipc/ipc.go:170-366 | in every run and for every prefix of the wire, write errors included, the peer reads an interleaving of a prefix of the hi messages, a prefix of the bulk messages and a selection of the video frames |
| `IpcConn.PeerReadsAll` | agent/ipc/ipc.go:192-247 | without a failed write the peer that has read every byte has exactly the completed writes |
| `IpcConn.SecondOfferFits` | agent/ipc/ipc.go:296-315 | with one video producer the drop-oldest loop needs at most two offers |
| `IpcConn.ClosedIff` | agent/ipc/ipc.go:231-245 | the connection is closed from the first failed write or close on, for good and no earlier |
| `IpcConn.NothingAfterFailure` | agent/ipc/ipc.go:231-245 | after a failed write, or once the writer has ended, nothing more goes on the wire |
| `IpcConn.QueuesBounded` | agent/ipc/ipc.go:179-190 | the queues never hold more than 1024, 256 and 8 messages, and the writer ends only when the connection is closed |
| `IpcFairness.BulkNotStarved` | agent/ipc/ipc.go:192-235 | while bulk is never empty no nine consecutive writes are hi writes, from any reachable state on |
| `IpcFairness.BulkServed` | agent/ipc/ipc.go:192-235 | while neither lane is ever empty every nine consecutive writes include a bulk one, except nine that begin with a video write already choosable when the stretch began |
| `IpcFairness.HiBeforeBulk` | agent/ipc/ipc.go:192-235 | input goes before file data: over any stretch of any run in which the hi lane is never empty, two bulk writes are at least nine writes apart, and behind the first write there is no video write |
| `IpcFairness.StreakIsRun` | agent/ipc/ipc.go:192-230 | in every run the writer's counter is the number of hi messages taken last without any other between |
| `IpcWriter.Conn.constructor` | agent/ipc/ipc.go:179-190 | a new connection is the initial state of the step system |
| `IpcWriter.Conn.WriteMessage` | agent/ipc/ipc.go:263-274 | queues on hi when there is room, refuses an oversized payload, reports a closed connection, and waits exactly when 1024 messages are queued on an open one |
| `IpcWriter.Conn.WriteBulk` | agent/ipc/ipc.go:280-291 | the same for the bulk lane and 256 messages |
| `IpcWriter.Conn.BeginDroppable` | agent/ipc/ipc.go:296-300 | entering a droppable write begins an attempt, or refuses an oversized frame |
| `IpcWriter.Conn.OfferVideo` | agent/ipc/ipc.go:301-306 | the outer select of a droppable write never blocks: it queues when fewer than 8 frames are queued, otherwise gives up on a closed connection or sees the queue full |
| `IpcWriter.Conn.DropOldest` | agent/ipc/ipc.go:308-312 | the inner select drops the oldest queued frame if there still is one |
| `IpcWriter.Conn.ForcedSlot` | agent/ipc/ipc.go:203-211 | after eight hi writes a waiting bulk message is taken first, before that none is |
| `IpcWriter.Conn.PreferHi` | agent/ipc/ipc.go:214-220 | a waiting hi message is taken whatever waits on the other lanes; with none the writer ends on a closed connection or goes on to the select over all lanes |
| `IpcWriter.Conn.WaitSelect` | agent/ipc/ipc.go:221-228 | the select over all lanes may take any ready case and no other |
| `IpcWriter.Conn.SocketWrite` | agent/ipc/ipc.go:231-245 | a write that succeeds puts the whole frame on the wire and nothing else; one that fails puts out the bytes that got through and closes the connection |
| `IpcWriter.Conn.CloseConn` | agent/ipc/ipc.go:318-321 | closing is one step of the system, and a second close changes nothing |
| `FileReceiver.UniquePathIsFree` | agent/session/filerecv.go:467-485 | the chosen name is new exactly when one of the thousand candidates is free |
| `FileReceiver.CandidatesDiffer` | agent/session/filerecv.go:467-485 | the numbered names all differ |
| `FileReceiver.CandidateShape` | agent/session/filerecv.go:474-483 | a numbered name is the name with " (i)", i in decimal without leading zeros, put in before its last extension |
| `FileReceiver.FewFilesFree` | agent/session/filerecv.go:467-485 | with fewer than 1000 files in the folder the chosen name is always new |
| `FileReceiverProof.FewFilesTakeNone` | agent/session/filerecv.go:93-233 | so as long as the folder holds fewer than 1000 files no accepted offer ever takes a file that somebody owns |
| `FileReceiverCode.Receiver.FindPath` | agent/session/filerecv.go:467-485 | the search returns the least free candidate, or the plain name when all are taken; a name that is free is taken as it is, and with fewer than 1000 files the result is always new |
| `FileReceiverCode.Receiver.HandleMessage` | agent/session/filerecv.go:93-214 | one message moves the open transfers, the folder and the replies as the specification step says; an oversized offer changes nothing and is answered failed |
| `FileReceiverCode.Receiver.Append` | agent/session/filerecv.go:142-180 | a chunk is appended and acknowledged exactly when 1 MiB has come since the last acknowledgement; one over the limit, or with a write error, ends the transfer, which loses its file and is answered failed |
| `FileReceiverCode.Receiver.Fail` | agent/session/filerecv.go:435-445 | an aborted transfer loses its file and is reported failed |
| `FileReceiverCode.Receiver.CloseAllTransfers` | agent/session/filerecv.go:449-465 | every open transfer is removed and reported failed, in whatever order the map yields |
| `FileReceiverProof.OwnedRun` | agent/session/filerecv.go:93-233 | open transfers own distinct files, as long as their byte counts, apart from saved and earlier files, in every run in which no accepted offer takes a file that somebody owns |
| `FileReceiverProof.OwnedOfferIff` | agent/session/filerecv.go:107-130 | an accepted offer keeps that so exactly when one of its thousand names is free, or its plain name is neither that of an earlier file, nor of a saved one, nor of another open transfer |
| `FileReceiverProof.OwnedRunIff` | agent/session/filerecv.go:93-233 | so files are owned at every moment of a run exactly when no accepted offer takes one that is |
| `FileReceiverProof.EachTransferAlone` | agent/session/filerecv.go:93-233 | refinement: in such a run each id behaves as a receiver of its own with a private buffer, whatever messages about other ids come between |
| `FileReceiverCounts.EachCountedAlone` | agent/session/filerecv.go:93-233 | in every run, whatever happens to names and files, the receiver counts and answers for each id exactly as a receiver of its own |
| `FileReceiverCounts.OpenTransfersBounded` | agent/session/filerecv.go:131-180 | in every run an open transfer of the shared receiver has counted exactly the bytes of its chunks since its offer, never more than the limit, and acknowledged all but less than 1 MiB of them |
| `FileReceiverCounts.OffersAccounted` | agent/session/filerecv.go:93-214 | in every run the shared receiver answers every offer by exactly one saved or failed, or it is open, cancelled or replaced |
| `FileReceiverCounts.SavedWhenCounted` | agent/session/filerecv.go:181-214 | in every run an event is answered saved exactly when it is the closing message of an open transfer whose chunks are together as long as declared |
| `FileReceiverProps.InProgressHolds` | agent/session/filerecv.go:131-180 | a private receiver holds exactly the decodable chunks since its offer, never more than the limit, less than 1 MiB beyond the last acknowledgement |
| `FileReceiverProps.OneVerdictPerOffer` | agent/session/filerecv.go:93-214 | a private receiver answers every offer by exactly one saved or failed, or it is open, cancelled or replaced |
| `FileReceiverAlone.AloneStepIff` | agent/session/filerecv.go:93-233 | a transfer keeps its file to itself exactly as long as no accepted offer of another id takes its path, and its own offer gets a path that no other open transfer has |
| `FileReceiverAlone.AloneSinceIff` | agent/session/filerecv.go:93-233 | over whole runs: a transfer has had its file to itself at every moment since its offer exactly when every event since then left it its file |
| `FileReceiverAlone.OpenFileHolds` | agent/session/filerecv.go:131-180 | the file of a transfer left alone is the join of its chunks since its offer, whatever becomes of the names of all others |
| `FileReceiverAlone.SavedMeansWhole` | agent/session/filerecv.go:181-214 | a saved reply for a transfer left alone means that the file is, then and as long as no accepted offer takes its path, the join of that id's chunks and as long as declared |
| `FileReceiverAlone.SavedByEvent` | agent/session/filerecv.go:181-214 | every saved reply there is was given by one event, so the results about such events cover all of them |
| `FileReceiverAlone.OwnersLeftAlone` | agent/session/filerecv.go:93-233 | when no accepted offer takes a file that somebody owns, every transfer is left alone |
| `FileReceiverAlone.SavedAreSpared` | agent/session/filerecv.go:93-233 | and no saved file is ever taken |
| `FileReceiverAlone.SavedStaysIff` | agent/session/filerecv.go:93-233 | in every run a file that no open transfer has stays so exactly when no accepted offer takes its path, and then no event changes or removes it |
| `FileReceiverProps.FolderLedger` | agent/session/filerecv.go:93-233 | at every moment the folder is exactly the files it began with, untouched, the saved, the open and the abandoned ones |
| `FileReceiverProps.TidyIff` | agent/session/filerecv.go:93-233 | nothing is left behind exactly when every abandoned file has been taken again |
| `FileReceiverProps.FolderTidyIff` | agent/session/filerecv.go:93-233 | as long as names do not run out, nothing is left behind in the folder exactly when no accepted offer ever re-used the id of an open transfer |
| `FileReceiverProps.NothingElse` | agent/session/filerecv.go:93-233 | in every run, also when names run out and transfers share files, the folder holds nothing but the files it began with, the saved, the abandoned and the open ones |
| `FileReceiverProps.FolderTidy` | agent/session/filerecv.go:93-233 | in every run in which no open id is re-used, every file of a transfer that ended unsaved is gone; and what should be there is there, untouched, as long as no offer takes somebody's file |
| `FileReceiverProps.ReofferLeaksFile` | agent/session/filerecv.go:107-130 | an accepted offer that re-uses an open id leaves an orphan file behind exactly when it does not get that very path again |
| `FileReceiverProps.OfferKeepsFilesIff` | agent/session/filerecv.go:467-485 | an offer leaves every file as it was exactly when one of its names is free or the file of the plain name is empty |
| `FileReceiverProps.SavedAlthoughEmptied` | agent/session/filerecv.go:181-214 | with all names taken, an offer of the same name empties an open transfer's file, which is still answered saved |
| `FileReceiverProps.SavedEmptyRun` | agent/session/filerecv.go:467-485 | a run that gets there from a folder whose thousand candidates but the plain one are taken: two offers of one name, and the first transfer is answered saved with an empty file |
| `FileReceiverProps.SharedFileRun` | agent/session/filerecv.go:467-485 | two transfers share an empty file: the first is answered saved, and then the second writes over its file |
| `FileReceiverProps.FullFolder` | agent/session/filerecv.go:467-485 | and such a folder exists for every name |
| `FileSender.ExportFileStreaming` | agent/session/filerecv.go:246-307 | however reads split the file: the offer first, the chunks numbered from 0 on, and then either the closing message, exactly when the file was read to its end at its size, or "failed" behind the offer; for an empty file nothing is sent |
| `FileSender.ExportReports` | agent/session/filerecv.go:284-307 | the viewer always hears how an export ended, and hears "failed" exactly when a read failed or the bytes read are not as many as announced |
| `FileSender.SentChunksJoin` | agent/session/filerecv.go:271-283 | the chunks sent are not empty and join to the bytes read, whatever the reads returned |
| `FileSender.ServeExport` | agent/session/filerecv.go:344-368 | a file read into memory is offered with its length and goes out in numbered chunks of 36 KiB with the closing message last |
| `FileSender.CutJoins` | agent/session/filerecv.go:346-360 | those chunks are not empty, none has more than 36864 bytes, all but the last have exactly that many, and they join to the file |
| `FileTransfer.TransferOnTheWire` | agent/session/filerecv.go:246-307 | in every run of the connection and for every prefix of the wire, the peer sees in order a prefix of what was queued for a transfer on the bulk lane, with the offer somewhere among it |
| `FileTransfer.TransferArrivesIff` | agent/session/filerecv.go:93-307 | end to end over every interleaving: once offer and closing message have been read, the receiver answers saved if and only if the offer arrived first, and the file of a transfer left alone is then byte-identical, whatever other transfers do to each other |
| `FileTransfer.WholeArrivesIff` | agent/session/filerecv.go:93-307 | the same at every moment of the sending, whichever messages a closing connection refused, and for every prefix of the wire: the receiver answers saved exactly when it has seen the complete transfer in its order, of a size within the limit |
| `FileTransfer.ExportArrivesIff` | agent/session/filerecv.go:93-307 | the streaming sender composed with connection and receiver: saved if and only if the sender read the file to its end at its size and the receiver saw all of it, the offer first; what is saved for a transfer left alone is exactly the bytes read; a file that failed to read or was truncated is never saved |
| `FileTransfer.ServedArrivesIff` | agent/session/filerecv.go:93-368 | the same for a file sent from memory |
| `FileTransfer.OwnersArrive` | agent/session/filerecv.go:93-307 | as long as no offer takes somebody's file, every file saved for the id is the one sent |
| `FileTransfer.VerdictIff` | agent/session/filerecv.go:93-214 | a receiver that gets any selection of a sender's bulk messages, with the offer in any place, ends in a whole file exactly when the offer is first and nothing is missing, and never saves anything else |
| `FileTransfer.LoadOfPart` | agent/session/filerecv.go:131-207 | whichever chunks are missing, the bytes are too few, so the size check finds it |
| `FileTransfer.OfferOvertaken` | agent/ipc/ipc.go:192-235 | a concrete run in which offer and chunk are queued between the writer's hi-first select and its select over all lanes, and the chunk reaches the wire first |
| `Base64.DecodeEncode` | agent/session/filerecv.go:131-135 | decoding inverts encoding for every byte string (section 4 of RFC 4648) |
| `Base64.BreaksIgnored` | agent/session/filerecv.go:131-135 | line breaks anywhere in a text change nothing about what it decodes to |
| `Base64.DigitsAre` | agent/session/filerecv.go:131-135 | the digits are the alphabet of section 4 of RFC 4648, by their codes, and no other character is one |
| `Base64.EncodeConcat` | agent/session/clipfiles_windows.go:191-194 | the text of whole three-byte groups followed by more is the join of the two texts |
| `Grid.ComponentOfMember` | agent/capture/diff.go:104-151 | 4-connected components are classes: every cell of a component has that same component |
| `Grid.EdgesConnect` | agent/capture/diff.go:111-141 | cells that share an edge are in one component |
| `Grid.CornersDoNot` | agent/capture/diff.go:111-141 | cells that only touch at a corner are not |
| `Grid.TightUnique` | agent/capture/diff.go:143-148 | a set of cells has only one tight bounding box |
| `DirtyRects.BlockEquals` | agent/capture/diff.go:61-83 | a block counts as equal exactly when no pixel in it, cut to the frame, differs in R, G or B by more than 10 |
| `DirtyRects.DiffersRaw` | agent/capture/diff.go:61-83 | a pixel differs exactly when its first, second or third byte does by more than 10 |
| `DirtyRects.NoneDiffersRaw` | agent/capture/diff.go:61-83 | no pixel differs exactly when no byte but the fourth of each pixel differs by more than 10 |
| `DirtyRects.BuildGrid` | agent/capture/diff.go:92-102 | the grid array is true exactly at the cells of the dirty blocks |
| `DirtyRects.Visit` | agent/capture/diff.go:131-138 | queues a neighbour exactly when it is dirty and unvisited, and keeps the walk's invariant |
| `DirtyRects.Flood` | agent/capture/diff.go:111-141 | the walk ends, visits exactly the connected component of its start, and yields that component's tight box |
| `DirtyRects.ScanRow` | agent/capture/diff.go:108-151 | scanning a row finds each component that starts there once, with its box |
| `DirtyRects.MergeBlocksToRects` | agent/capture/diff.go:86-162 | one rectangle per connected component: the components are disjoint, make up the dirty cells, each rectangle is the clamped tight box of its own, and there is none exactly when no cell is dirty |
| `DirtyRects.ClampAll` | agent/capture/diff.go:153-159 | clamping in place gives every rectangle cut to the frame |
| `DirtyRects.ClampedCovers` | agent/capture/diff.go:142-159 | a clamped rectangle covers exactly the frame's pixels in the cells of its box, partial edge blocks included |
| `DirtyRects.ClampedInFrame` | agent/capture/diff.go:142-159 | and is non-empty and inside the frame |
| `FrameDiff.DirtyBlocks` | agent/capture/diff.go:34-49 | the block loop collects exactly the corners of the cells that contain a differing pixel |
| `FrameDiff.DetectDirtyRects` | agent/capture/diff.go:18-57 | nil frames, a changed size, and equal sizes: there the rectangles are those of the components, and there is none exactly when no pixel differs |
| `FrameDiff.RectsInFrame` | agent/capture/diff.go:142-159 | every returned rectangle is non-empty and inside the frame |
| `FrameDiff.DifferenceCovered` | agent/capture/diff.go:18-83 | every differing pixel lies in a returned rectangle |
| `FrameDiff.RectHasDifference` | agent/capture/diff.go:18-162 | every returned rectangle contains a differing pixel |
| `FrameDiff.EmptyIff` | agent/capture/diff.go:51-53 | nothing is returned exactly when no pixel differs, that is, when no colour byte of the frames differs by more than 10 |
| `FrameDiff.SubImage` | agent/capture/diff.go:165-193 | the copy holds exactly the cut rectangle's pixels although every row's copy overruns the rows below, and nil is returned exactly when nothing is left |
| `FrameDiff.CutIsIntersectionIff` | agent/capture/diff.go:165-180 | for every rectangle and frame: what is cut out is the rectangle's part inside the frame exactly when no negative corner was moved, or the rectangle is empty, lies beyond the right or lower edge, or reaches past the edge opposite to the corner moved |
| `Ebml.UintBytes` | agent/record/webm.go:272-286 | the loop over leading zeros gives the minimal big-endian form |
| `Ebml.FromBeMinimal` | agent/record/webm.go:272-286 | an unsigned integer element's value is read back |
| `Ebml.MinimalIsShortest` | agent/record/webm.go:272-286 | no shorter big-endian form has that value |
| `Ebml.SizeReadBackIff` | agent/record/webm.go:245-261 | a size is read back by a VINT reader (section 4 of RFC 8794) exactly below 2^56 - 1, and reads as unknown exactly when its low 56 bits are all ones in the eight-byte form |
| `Ebml.ReadUnknownSize` | agent/record/webm.go:264-264 | the unknown size is read as unknown |
| `Ebml.ReadIdOfEncode` | agent/record/webm.go:229-242 | an element id is read back |
| `Ebml.ReadElement` | agent/record/webm.go:266-270 | an element is read back whatever follows it |
| `Ebml.Forms` | agent/record/webm.go:229-261 | ids and sizes byte by byte, at both ends of every length up to four bytes |
| `Ebml.LongId` | agent/record/webm.go:229-235 | and of a four-byte id |
| `Ebml.LongSize` | agent/record/webm.go:255-264 | and of an eight-byte size and the unknown one |
| `WebM.ReadWholeFile` | agent/record/webm.go:106-213 | a file of elements and unknown-size heads is read back piece by piece |
| `WebM.ReadCutFile` | agent/record/webm.go:121-126 | cut at any byte it gives exactly the pieces completely before the cut |
| `Recorder.BodyReadsBack` | agent/record/webm.go:266-296 | nested elements parse back to the same list with no byte left over |
| `Recorder.EbmlReadsBack` | agent/record/webm.go:107-117 | a reader finds document type "webm" and the versions, by their ids and bytes |
| `Recorder.InfoReadsBack` | agent/record/webm.go:128-133 | and a time scale of 1000000 with the application names |
| `Recorder.ScaleIsRead` | agent/record/webm.go:128-133 | whoever has read the first three pieces of a recording takes its ticks for milliseconds |
| `Recorder.TopLevel` | agent/record/webm.go:106-213 | the ids of all other elements, the cluster time and the fixed bytes of a block, by their values |
| `Recorder.TrackReadsBack` | agent/record/webm.go:138-151 | so is the one track entry: track 1, a video track, codec "V_VP8", by their ids and bytes |
| `Recorder.PictureReadsBack` | agent/record/webm.go:138-141 | and the picture size in it |
| `Recorder.Rounding` | agent/record/webm.go:176-210 | cluster time plus block offset is at most 1 ms early, never late, nondecreasing, and an offset is at most 1999 |
| `Recorder.GuardNeverFires` | agent/record/webm.go:166-184 | with nondecreasing times the 16-bit guard never opens a cluster |
| `Recorder.KeyframesStartNoCluster` | agent/record/webm.go:167-174 | a keyframe never starts a cluster by itself: only the span does |
| `Recorder.RunConsistent` | agent/record/webm.go:156-213 | after any sequence of writes the pieces hold exactly the frames kept, with their times, and the frame counter is right |
| `Recorder.FileReadable` | agent/record/webm.go:106-213 | every recording is made of well-formed pieces |
| `Recorder.FileInClusters` | agent/record/webm.go:156-213 | in every recording each block lies in a cluster |
| `Recorder.FileReadsBack` | agent/record/webm.go:106-213 | a parser recovers the header and then exactly the recorded frames: payload, keyframe flag, order, number, and a time that the scale read from the file puts less than 2000000 ns before the recorded one, never behind it, and in nondecreasing order across clusters |
| `Recorder.CutFileReadsBack` | agent/record/webm.go:121-126 | a recording cut at any byte parses to exactly the pieces completely written before the cut, and plays a prefix of the recorded frames at their times |
| `RecorderBytes.RecordHolds` | agent/record/webm.go:154-213 | as long as the writes succeed the file holds the bytes of exactly the pieces of the specification, header included |
| `RecorderBytes.FramesBeforeFailure` | agent/record/webm.go:154-213 | however often writes fail later and whatever is written after them, a reader still gets everything written before the first failure |
| `RecorderBytes.StoppedAtFailure` | agent/record/webm.go:154-213 | a recording stopped at its first failed write stays playable: the header, every frame before it, and nothing but a prefix of the recorded frames |
| `RecorderBytes.LostHead` | agent/record/webm.go:204-213 | the recorder counts a cluster as open before its head is written: when all of it or its time code is lost, the next frame is read at least 1999 ms early if a cluster was open before, and lies in no cluster exactly if none was and all is lost |
| `RecorderBytes.WholeHead` | agent/record/webm.go:204-213 | an error reported for a head written whole changes nothing but the frame it belongs to |
| `RecorderBytes.OpensWhen` | agent/record/webm.go:166-184 | a frame opens a cluster exactly when none is open or the open one began two seconds ago or more, and once more exactly when its offset is over 32767 |
| `RecorderCode.WebMRecorder.constructor` | agent/record/webm.go:92-152 | a new recording is the header's bytes under its path |
| `RecorderCode.WebMRecorder.New` | agent/record/webm.go:92-104 | a file that cannot be created or whose header fails gives no recorder and leaves no file |
| `RecorderCode.WebMRecorder.StartClusterLocked` | agent/record/webm.go:204-213 | opens a cluster with its time code; a failed write leaves part of the head and the cluster counted as open |
| `RecorderCode.WebMRecorder.EnsureCluster` | agent/record/webm.go:166-174 | a cluster is opened exactly when none is open or its span is over |
| `RecorderCode.WebMRecorder.WriteGuarded` | agent/record/webm.go:176-184 | an offset over 16 bits starts a cluster and becomes 0, and a failure there writes no block |
| `RecorderCode.WebMRecorder.WriteBlock` | agent/record/webm.go:186-201 | appends one SimpleBlock, which is counted only when it was written whole |
| `RecorderCode.WebMRecorder.Write` | agent/record/webm.go:156-202 | one write moves the recorder and its file's bytes as the specification step says, for every place where a write may fail, and answers an error exactly then; a stopped recorder and an empty frame change nothing |
| `RecorderCode.WebMRecorder.Stop` | agent/record/webm.go:216-225 | after it the recorder is closed, with its path and the error of closing the file; a second call only gives the path |
| `ClipImage.CutText` | agent/session/transport.go:497-524 | the pieces are numbered 0 to n - 1 of one n, all but the last have exactly 49152 characters and none has more, and they join to the whole text, empty text included |
| `ClipImage.BroadcastClipImage` | agent/session/transport.go:496-525 | the chunks sent for a picture are such a cut of its base64 text |
| `ClipImage.ClipSync.RecvImageChunk` | agent/session/clipboard.go:89-127 | one chunk moves the buffer as the specification step says |
| `ClipImage.AppliedIffUnbroken` | agent/session/clipboard.go:89-127 | for every chunk sequence a picture is applied exactly when the chunk just received ends an unbroken series 0 to n - 1 of one n, and it is then their joined text decoded |
| `ClipImage.PictureArrives` | agent/session/transport.go:496-525 | whatever was received before, the chunks sent for a picture give that picture back |
| `ClipFiles.Chosen` | agent/session/clipfiles_windows.go:247-255 | the chunks that make up a file: numbered 0, 1, ... of one total, in increasing places after the last chunk 0 |
| `ClipFiles.ChosenFirst` | agent/session/clipfiles_windows.go:247-255 | each of them is the first of its number and total after the one before it |
| `ClipFiles.SlotCounts` | agent/session/clipfiles_windows.go:247-255 | over every chunk sequence the slot has m parts exactly when chunks 0 to m - 1 have come in order, with any others between |
| `ClipFiles.SlotHolds` | agent/session/clipfiles_windows.go:247-260 | and the parts held are the texts of the chunks chosen |
| `ClipFiles.VerdictStep` | agent/session/clipfiles_windows.go:243-271 | an open file is settled by a refusal, or by the chunk that completes the series, with the decoded text |
| `ClipSender.ServeBytes` | agent/session/clipfiles_windows.go:195-229 | all messages about a requested file, lane by lane: chunks of 36 KiB counted from the size at the start, and a refusal when it cannot be opened or read |
| `ClipSender.AnswerShape` | agent/session/clipfiles_windows.go:196-225 | message by message: the refusal, sent exactly when the file cannot be opened or read, and the chunks numbered from 0 on under one total |
| `ClipSender.TotalCovers` | agent/session/clipfiles_windows.go:209-212 | that total is as many chunks of 36864 bytes as the size takes, at least one |
| `ClipSender.TextsJoin` | agent/session/clipfiles_windows.go:191-194 | the chunks' texts join to the text of the bytes read |
| `ClipSender.FileRecovered` | agent/session/clipfiles_windows.go:195-271 | whatever came before for an open file, a whole stream settles it with the bytes the sender read |
| `ClipSender.RecoveredIff` | agent/session/clipfiles_windows.go:209-225 | those are the file exactly when it has not outgrown the chunks counted at the start |
| `ClipSender.BrokenIsRefused` | agent/session/clipfiles_windows.go:196-220 | a file that cannot be opened or read is refused, never saved in part, wherever among its chunks the refusal arrives |
| `ClipAssembly.RunFollows` | agent/session/clipfiles_windows.go:151-321 | over every run of announcements and chunks for any tokens and indices the receiver keeps exactly the live announcements' records, writes exactly the files settled as saved, and stages exactly the announcements ended |
| `ClipAssembly.MessageEffect` | agent/session/clipfiles_windows.go:234-321 | one message writes a file exactly when it settles one as saved, under its name, and removes the announcement exactly when as many files are settled as were announced |
| `ClipAssembly.PendingCounts` | agent/session/clipfiles_windows.go:273-286 | the pending count is the files announced less the indices settled, so it drops once per index |
| `ClipAssembly.EndsWholeIff` | agent/session/clipfiles_windows.go:273-321 | an announcement that ends does so with all its files settled if and only if no file was settled that had not been announced |
| `ClipAssembly.LiveHasOpenFile` | agent/session/clipfiles_windows.go:273-321 | it never ends late: a live announcement has an open file |
| `ClipAssembly.OverWhenAllSettled` | agent/session/clipfiles_windows.go:273-321 | as long as only announced files are settled, whatever stray chunks come, an announcement is over exactly when its last open file is settled |
| `ClipAssembly.EndedByStrangers` | agent/session/clipfiles_windows.go:273-286 | indices outside the announcement are counted too: two refusals of files never announced end an announcement of which nothing has arrived |
| `ClipDelivery.AnswerLands` | agent/session/clipfiles_windows.go:195-321 | sender to folder: when the messages about a file of a live announcement are some that left it open followed by its sender's stream, the last of them leaves the bytes the sender read under the file's name and touches no other file, whatever else was received in between |
| `ClipDelivery.FileStaysIff` | agent/session/clipfiles_windows.go:273-297 | a file written in a run holds its bytes at the end exactly when no later message wrote other bytes under its name, or the last that did wrote the same |
| `ClipDelivery.StagedFilesOwnIff` | agent/session/clipfiles_windows.go:273-321 | what is put on the clipboard when an announcement ends is the names of its saved files, and each still holds its own bytes exactly when what was last written under its name between its settling and the staging, by any announcement, had the same bytes |
| `ClipDelivery.UndisturbedOwnIff` | agent/session/clipfiles_windows.go:273-321 | with no other announcement writing under its names, all files hold their own bytes exactly when no two of one name have different bytes |
| `ClipDelivery.SameNameLost` | agent/session/clipfiles_windows.go:288-321 | two announced files of one name: both are settled as saved and both staged, and the first one's bytes are gone |
| `ClipCode.ClipInAsm.Store` | agent/session/clipfiles_windows.go:246-262 | storing a chunk changes the tables of its index as the specification says and yields the text of a completed file |
| `ClipCode.ClipInAsm.End` | agent/session/clipfiles_windows.go:279-286 | an index is counted as finished once, with the name its file gets |
| `ClipCode.ClipFilesHost.HandleAnnounce` | agent/session/clipfiles_windows.go:151-162 | an announcement starts a new, empty record with as many files pending as it names, replacing one of the same token |
| `ClipCode.ClipFilesHost.FinishFile` | agent/session/clipfiles_windows.go:273-321 | finishing a file writes it, counts it, and ends the announcement with its staged paths when none is pending |
| `ClipCode.ClipFilesHost.RecvBytes` | agent/session/clipfiles_windows.go:234-271 | one data message moves the records, the folder and the staged sets as the specification step says |
| `Lockout.Hub.HandleConnect` | server/signaling/hub.go:626-710 | the failure table and the answer to one attempt: a wrong password counts one more, or the first when ten minutes have passed, a login clears the record, an unknown target changes nothing but that; the seconds reported with a refusal, by the clock read for the report, are enough for the lock to be over and never more than one too many |
| `Lockout.GuessingIsSlow` | server/signaling/hub.go:845-856 | n failed checks on a target with no success between them span at least n - 5 minutes, although ten quiet minutes forget them, whatever attempts on other targets overlap with them |
| `Lockout.RefusedChangesNothing` | server/signaling/hub.go:637-655 | a refused attempt changes nothing, so it cannot extend a lock |
| `Lockout.OtherTargetsKept` | server/signaling/hub.go:626-710 | an attempt leaves every other target's record alone |
| `Lockout.LockedIff` | server/signaling/hub.go:626-655 | over every run, with any traffic to other targets at the same time: a target is refused exactly when, since its last successful login, its last five failed checks came each within ten minutes of the one before it and the last is less than a minute old |
| `Lockout.LockEnds` | server/signaling/hub.go:637-655 | whatever the order of the attempts, a refusal means at least 5 failed checks, the last less than 60 s old |
| `Lockout.RareFailuresNeverLock` | server/signaling/hub.go:628-636 | when each wrong password for one target comes more than ten minutes after its last failure the target is never locked, whatever else happens on it and on all others |
| `Privacy.PrivacyGuard.AssertPrivacy` | agent/session/privacyguard.go:44-63 | switching on blanks the screen and renews the lease to 12 s from now; switching off always restores it |
| `Privacy.PrivacyGuard.ClearPrivacy` | agent/session/privacyguard.go:67-77 | switches privacy off, drops the lease and restores the screen |
| `Privacy.PrivacyGuard.CheckLease` | agent/session/privacyguard.go:91-103 | one watchdog pass restores the screen of an expired lease |
| `Privacy.LeaseHolds` | agent/session/privacyguard.go:25-105 | in every run a blanked screen has a lease from an assertion and no tick after its end |
| `Privacy.BlankedOnlyWhileAsserted` | agent/session/privacyguard.go:29-32 | the dead-man's switch: with ticks at most a check period apart a blanked screen was asserted within the last lease and check period |
| `Privacy.ScreenMatchesBelief` | agent/session/privacyguard.go:44-105 | what the operating system was told is what the guard believes after every step |
| `Privacy.BlankedIff` | agent/session/privacyguard.go:44-105 | the screen is blanked exactly when the viewer has asserted privacy and since then has neither released nor cleared it, nor has a tick come more than 12 s after the last assertion |
| `Privacy.WatchdogRestoresIff` | agent/session/privacyguard.go:91-103 | a tick restores the screen exactly when the last assertion is more than a lease old |
| `Privacy.RenewedStaysBlanked` | agent/session/privacyguard.go:25-63 | a screen renewed within every lease stays blanked |
| `OpusFraming.Frames` | agent/session/hostaudio.go:78-84 | every frame cut is exactly 960 samples |
| `OpusFraming.FramesAndRest` | agent/session/hostaudio.go:78-84 | frames and rest join to the samples they were cut from |
| `OpusFraming.EncodedIs` | agent/session/hostaudio.go:87-96 | the frames sent are those before the first one the encoder refuses |
| `OpusFraming.Framer.CutFrames` | agent/session/hostaudio.go:72-84 | appending, trimming to the newest 24000 samples and cutting frames |
| `OpusFraming.Framer.SendFrames` | agent/session/hostaudio.go:87-96 | frames are sent in order up to the first the encoder refuses |
| `OpusFraming.Framer.EncodeAndSend` | agent/session/hostaudio.go:53-97 | one callback; without a sink, samples or an encoder nothing changes |
| `OpusFraming.SamplesCounted` | agent/session/hostaudio.go:53-97 | over any run every sample is sent, pending or counted as lost |
| `OpusFraming.ConservedIff` | agent/session/hostaudio.go:72-97 | frames sent and samples pending are exactly the samples delivered if and only if no callback brings too much and no frame is refused |
| `OpusFraming.RunShape` | agent/session/hostaudio.go:78-84 | every frame sent has 960 samples and fewer than 960 are pending |
| `OpusFraming.SmallCallbacksFit` | agent/session/hostaudio.go:72-77 | a callback of at most 24000 - 959 samples never brings too much |
| `OpusFraming.OverflowKeepsNewest` | agent/session/hostaudio.go:73-77 | one that does leaves exactly the newest 24000 samples |
| `EnvFile.SplitJoin` | agent/bootstrap/bootstrap.go:191-193 | joined lines are split back into the same lines |
| `EnvFile.ReadPrinted` | agent/bootstrap/bootstrap.go:194-202 | a printed line sets its key and no other |
| `EnvFile.LineMeans` | agent/bootstrap/bootstrap.go:191-202 | a line sets the key before its first "=" to what is behind it, without surrounding white space; empty lines, comments and lines without "=" set nothing |
| `EnvFile.TrimMeans` | agent/bootstrap/bootstrap.go:191-202 | trimming takes off white space at both ends and nothing else |
| `EnvFile.QuotesMean` | agent/bootstrap/bootstrap.go:210-217 | a value in a pair of quotes loses them, once |
| `EnvFile.ReadRendered` | agent/bootstrap/bootstrap.go:65-99 | reading printed lines sets exactly the settings printed, whatever was read before |
| `EnvFile.LoadRendered` | agent/bootstrap/bootstrap.go:65-154 | what loading a printed file gives when no value has a line feed |
| `EnvFile.CleanIff` | agent/bootstrap/bootstrap.go:194-217 | what a clean value is: no line feed, no white space at either end, not in a pair of quotes, by the codes of the characters |
| `EnvFile.Utf8Next` | agent/bootstrap/bootstrap.go:190-191 | a character takes one to four bytes of the reader's buffer, by its code |
| `EnvFile.RoundTripIff` | agent/bootstrap/bootstrap.go:65-217 | loading a printed configuration gives it back exactly when every value is free of line feeds, surrounding white space and one pair of outer quotes, and every line fits the reader's buffer |
| `EnvFileCode.ReadEnvFile` | agent/bootstrap/bootstrap.go:184-208 | the whole read fails when a line is too long, otherwise the last value of every key is kept |
| `EnvFileCode.AgentConfig.RenderEnvFile` | agent/bootstrap/bootstrap.go:65-99 | prints the settings in order, leaving out empty ones but the first |
| `EnvFileCode.FieldsPrinted` | agent/bootstrap/bootstrap.go:65-82 | each field is printed under its own key |
| `EnvFileCode.ConnectionPrinted` | agent/bootstrap/bootstrap.go:82-99 | so are those of the connection |
| `EnvFileCode.AgentConfig.SetByKey` | agent/bootstrap/bootstrap.go:105-153 | sets the setting of a known key and nothing else |
| `EnvFileCode.AgentConfig.Apply` | agent/bootstrap/bootstrap.go:101-154 | in whatever order the map is walked, settings with a non-empty value are set and the others kept |

## Left out

- Whole parts of the program: screen capture, video and audio codecs, input, windows, WebRTC and ICE, HTTP routes, Redis, TLS, tokens, alias bookkeeping, and everything that only calls the operating system.
- JSON: messages are decoded datatypes; where bytes on the wire matter the decoder is an arbitrary function, so the results hold for every one.
- Connection: a queued message stands for its frame, which is built before it is queued; dialling, TLS and the reader's own loop are not modelled.
- IpcFairness.BulkServed: video against bulk has no bound, because the last select is unordered; the one exception in the statement is a video frame already choosable when the stretch begins.
- File transfer: sender and receiver are composed directly, where in the program the exporter's peer is the viewer; sanitising names, choosing the folder, the file picker, a file that cannot be opened or measured (nothing is sent) and re-reading a busy file are left out. Only the receiver changes the folder, removing a file succeeds, and a failed write aborts its transfer so what it wrote does not matter.
- FileReceiverProof.EachTransferAlone: assumes that no accepted offer takes a file that somebody owns; FileReceiverProof.OwnedRunIff says exactly when that is so, FileReceiverCounts.EachCountedAlone what holds without it, and FileReceiverAlone.SavedMeansWhole what holds for a single transfer. Once it fails, two transfers with one path share the file of that name at each moment, where a handle would keep a removed file.
- FileReceiverProps.FolderLedger: makes the same assumption; FileReceiverProps.NothingElse is the half that holds without it.
- DirtyRects.MergeBlocksToRects: integers are unbounded, while Go's `w + blockSize - 1` (agent/capture/diff.go:92) wraps for block sizes near 2^63.
- FrameDiff.DetectDirtyRects: frames are packed (four bytes a pixel, rows end to end), as the code assumes; the position of the bounds matters only for comparing them.
- RecorderBytes.LostHead: the head is lost from its start or from its time code on; a cut inside the id, the size or the time code makes a reader take the bytes that follow for the rest of it, so what becomes of the next frame depends on its content, and only RecorderBytes.FramesBeforeFailure speaks of that.
- RecorderCode.WebMRecorder.Write: frames of 2^56 - 5 bytes and more and times of 2^63 ns and more are excluded, and times do not decrease.
- ClipImage.ClipSync.RecvImageChunk: a first chunk with a negative count makes the source panic, so it is excluded; handing the picture to the clipboard, which may fail, is the end of the model.
- ClipCode.ClipFilesHost.RecvBytes: a chunk 0 with a negative count makes the source panic, so it is excluded; messages are handled one at a time, names stand for their sanitised form, writing to the temporary folder succeeds, and the paths staged are recorded where the source hands them to a helper process. Announcing the host's own files, asking for the viewer's and the token counter are left out.
- ClipSender.ServeBytes: the connection that carries its lanes is not composed with the receiver here, so chunks arrive in their order; the file does not change between its reads, only between being measured and being read.
- Lockout.Hub.HandleConnect: attempts on one target are taken one after the other (those on different targets may overlap), while in the program the check and the increment are in separate lock sections; the password check is a given answer. Audit events and session setup are left out.
- Privacy.PrivacyGuard.AssertPrivacy: each command and each watchdog pass is one step, while the program tells the operating system after releasing its lock; the call itself is taken to succeed.
- OpusFraming.Framer.EncodeAndSend: whether the encoder takes a frame is a function of the frame; the encoded bytes are not modelled.
- EnvFile.RoundTripIff: values are valid Unicode text; the path of the file and the default certificate paths are not part of the configuration.
