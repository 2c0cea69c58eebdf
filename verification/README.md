# Verification of the Timepix server's core

A Dafny model of the parts of the server that carry its logic, with proofs of what they guarantee.
`dafny verify dfyconfig.toml` checks all of it.

| part of the server | files |
|---|---|
| online clusterer | `Clusters` (one cluster), `Scan` and `ScanCounts` (one click against all open clusters), `Multiplicities` (how often a click is counted), `Means` (where means are lost), `ClusterRuns` and `MeanRuns` (whole runs), `ClusteringManager` (the objects, updated in place), `Packets` (packet and cluster words) |
| time-of-arrival unwrapping and packet conversion | `Rollover`, `RawPackets`, `PacketLayout`, `Bits`, `PublishedTimes`, `Tpx3Files`, `UdpConnectionManager` (the object) |
| command protocol | `Tables`, `Protocol` (the state machine), `ProtocolSafety`, `ProtocolReplies`, `ProtocolService`, `ProtocolAnswers` (immediate answers and failures), `Frames`, `SecondaryThread`, `CommsThread` (the objects) |
| histogram thread | `Histogram` |
| the threads together | `Pipeline` (from raw words to bins), `ClusterTimes` (published times in the clusterer) |
| bundled TOML library | `TomlArray`, `TomlReader` |
| shared | `Words`, `ByteOrder` |

## How the code is represented

- Classes of the source that update their fields are classes here, with the same fields. Each method is
  proved against a function of the old state; the theorems are about those functions and about every run
  they can make. Values the source keeps in vectors of structs (clusters) stay values in a `seq`; a
  `Cluster&` or `Cluster*` into such a vector is its slot number.
- Words and bytes are bounded naturals. A mask with a shift is a remainder and a quotient by powers of two,
  an OR of fields that cannot overlap is their sum, and an exclusive or with 0xF is subtraction from 15.
  `Bits` and `PacketLayout` prove what that does to the bits themselves.
- A `double` is a real number or the NaN that 0.0 / 0.0 gives, so clusters of total ToT 0 are included.
  Converting a NaN to an integer is undefined in C++; its result is the parameter `undef`.
- The model's clusters carry the list of clicks they absorbed, and the `CommsThread` class carries the run
  it made. The program stores neither.
- The command thread's main loop, its device manager and its current client manager are one class,
  `CommsThread`, because they call each other in a cycle. The pointer to a client manager is its number.
  A send out of turn, through a pointer to a replaced client manager, or an access outside a buffer or a table
  sets `fault`, and the model stops there. `ProtocolSafety.FaultExact` says exactly when that happens.
- Completions of socket operations, requests, answers of other threads, whether a file opens, whether the
  device comes back after a reset and whether the output period is over are inputs.

## Where the code differs from what one might expect

- A click that is in k open clusters can leave more than one of them: the cluster swapped into a vacated slot
  is not looked at. Exactly one is left if and only if none of the last k - 2 open clusters contained the click
  (`ClusterRuns.ClickPlacement`); when all match, (k + 1) / 2 are left (`ScanCounts.AllMatchHalves`), and it
  happens in runs of four clicks (`ClusterRuns.TwoLeft`). The click's weight counts once for each cluster it was
  added to.
- A cluster has lost its mean (NaN) exactly when it holds a click of ToT 0 that was added to a cluster of total
  ToT 0 (`MeanRuns.RunMeanLost`): in `addClick` itself (`ClusterRuns.MeanLost`), or because such a cluster was
  merged with it later, which also happens to clusters with weight (`MeanRuns.LostByMerge`).
- A late click from before the latest wrap of the 34-bit clock is stamped one period too high, and no other is
  stamped wrongly (`Rollover.StampExact`, `Rollover.StampRightIff`). A stream that starts in the last quarter of
  a period misses its first wrap if and only if no click before it was in the middle half of the period
  (`Rollover.LateStartMissesWrap`). The bound on disorder and gaps is exact (`Rollover.DisorderBoundExact`).
- A late click is published one period too high and pushes out every open cluster
  (`ClusterTimes.LateClickSweeps`), so around a wrap the clusterer tolerates disorder exactly when no late click
  is followed by one that is not late (`ClusterTimes.PublishedTolerant`).
- Published histogram bins add up to the number of packets if and only if no bin passed 65535 within one frame
  (`Histograms.Conservation`).
- A request stays unanswered at shutdown exactly when the device's reply to it had a command code the server
  does not know, its forwarding to another thread failed, or its command was still queued and never sent
  (`ProtocolReplies.StoppedExact`). The first two are lost for good (`ProtocolReplies.LostForGood`).
- A client whose request is lost hears nothing; its next message is not received either, and then its manager is
  replaced (`ProtocolAnswers.DeafReplaced`).
- After a refused frame (no reply bit, wrong chip, short) the device is not read any more and the client not
  polled, until a stop (`ProtocolService.StalledStays`).
- A pixel configuration is accepted with any number of 48-word blocks, but its frame fits the command buffer
  only up to 252 words (`ProtocolService.PixelConfigSent`). The error code of a device frame is looked up in
  tables without a check, and 16 is subtracted from its length without one (`Frames.HarmfulExact`).

## Model

| member | source | states |
|---|---|---|
| Clusters.Remove | src/server/ClusteringManager.cpp:99-106 | the list without element ix: the last element takes its slot, nothing else moves, and as a multiset exactly the removed element is gone |
| Clusters.ExactNew | src/server/ClusteringManager.cpp:35-45 | a new cluster is an exact summary of its click, of ToT 0 too |
| Clusters.ExactMerge | src/server/ClusteringManager.cpp:60-71 | merging exact summaries gives the exact summary of the joined clicks: total ToT, ToT-weighted mean of each axis, and the padded range of each axis |
| Clusters.ExactAdd | src/server/ClusteringManager.cpp:47-58 | adding a click keeps the summary exact |
| Clusters.ContainsExact | src/server/ClusteringManager.cpp:81-83 | a cluster contains a click if and only if along each of x, y and t one of its clicks is at most the separation above it and one at most the separation below |
| Scans.ScanFaithful | src/server/ClusteringManager.cpp:226-238 | the merge scan keeps every open cluster an exact summary of clicks of the stream |
| Scans.SweepFaithful | src/server/ClusteringManager.cpp:244-250 | so does the expiry sweep, for the clusters it keeps and those it outputs |
| Scans.ScanIds | src/server/ClusteringManager.cpp:226-238 | over merges and swap-removals in the running loop, no click leaves the open clusters, none gets into two of them, and the new click is held if anything matched |
| Scans.PlacedIds | src/server/ClusteringManager.cpp:226-242 | after the scan and the creation of a cluster the new click is held once and all others as before |
| Scans.SweepIds | src/server/ClusteringManager.cpp:244-250 | the sweep splits the held clicks into kept and output ones, with no click in both |
| ScanCounts.SweepExact | src/server/ClusteringManager.cpp:244-250 | every slot is examined once: the output is exactly the expired clusters in descending slot order, and the others remain, as a multiset |
| ScanCounts.SweepCount | src/server/ClusteringManager.cpp:244-250 | the sweep does not change how many open clusters contain a click that no expired cluster contains |
| ScanCounts.ScanAfterMatch | src/server/ClusteringManager.cpp:228-232 | from the first match on: how many clusters contain the click afterwards, and how often its cluster counted it, from the matches before and ahead of the cursor |
| ScanCounts.ScanSkipsNone | src/server/ClusteringManager.cpp:228-232 | from the first match on: no further match is left over if and only if, of a matches ahead of the cursor, none is in the last a - 1 slots |
| ScanCounts.ScanFromStart | src/server/ClusteringManager.cpp:223-238 | the first matching slot keeps its index and ends up with the click; with k matches between 1 and (k + 1) / 2 clusters contain the click afterwards, exactly one if and only if none of the last k - 2 slots matched, and the click was counted once per cluster it was added to |
| ScanCounts.AllMatchHalves | src/server/ClusteringManager.cpp:226-238 | the bound is reached for every k: if all k open clusters match, exactly (k + 1) / 2 are left |
| ClusterRuns.RunPartition | src/server/ClusteringManager.cpp:219-252 | over every run of clicks and flushes, each click belongs to exactly one open or emitted cluster |
| ClusterRuns.RunExact | src/server/ClusteringManager.cpp:35-71 | over every run, each open or emitted cluster is an exact summary of its clicks, each counted as often as it was added to a cluster on its arrival |
| ClusterRuns.RunClicks | src/server/ClusteringManager.cpp:219-221 | the clicks of a run are those that arrived, in order |
| ClusterRuns.ExpiredExact | src/server/ClusteringManager.cpp:246 | for settings that are not negative the unsigned comparison is the plain t > tmax + max_t_separation |
| ClusterRuns.ExpiredSigned | src/server/ClusteringManager.cpp:246 | for any C++ ints as settings: a sum below zero wraps around and expires nothing, any other is compared as it is |
| ClusterRuns.ToleranceSound | src/server/ClusteringManager.cpp:244-250 | if no click is earlier than a previous one by more than max_t_separation, no click arriving once a cluster was swept out lies in its box |
| ClusterRuns.ToleranceTight | src/server/ClusteringManager.cpp:244-250 | one tick more of disorder is too much, for every setting |
| ClusterRuns.OpenBound | src/server/ClusteringManager.cpp:244-250 | the open clusters number at most the clicks at or after t_last - max_t_separation - t_sep |
| ClusterRuns.PlacedCounts | src/server/ClusteringManager.cpp:223-242 | before the sweep: how many clusters contain the click and exactly when it is one, and how often its own cluster counted it |
| ClusterRuns.ClickPlacement | src/server/ClusteringManager.cpp:223-250 | after any run and a whole step: with k open clusters containing the click before, between 1 and max(1, (k + 1) / 2) do afterwards, exactly one if and only if none of the last k - 2 open clusters contained it; the cluster that took it counted it max(1, k + 1 - n) times, just once if and only if k <= 1 |
| ClusterRuns.ArriveCopies | src/server/ClusteringManager.cpp:219-252 | on its arrival a click is counted max(1, k + 1 - n) times in all open and emitted clusters together, with k and n of ClickPlacement |
| ClusterRuns.StepCopies | src/server/ClusteringManager.cpp:199-252 | no later click or flush changes how often a click is counted |
| ClusterRuns.RunMultiplicity | src/server/ClusteringManager.cpp:219-252 | over every run, the cluster that holds a click counts it exactly as often as its arrival said |
| ClusterRuns.TwoLeft | src/server/ClusteringManager.cpp:226-238 | for every separation from 1 to 254 a run of four clicks that leaves two open clusters with the fourth in both boxes |
| ClusterRuns.HeldWord | src/server/ClusteringManager.cpp:73-79 | over every run: the word of an open or emitted cluster decodes to the floor of each mean that is a number, and that mean lies between the least and the greatest coordinate of the cluster's clicks; with every ToT at least 1 all means are numbers |
| ClusterRuns.MeanLost | src/server/ClusteringManager.cpp:48-50 | in addClick: exactly when adding a click turns a mean into NaN |
| Means.MergeKeepsMean | src/server/ClusteringManager.cpp:60-64 | two numbers merged inside the scan never give 0/0: a merge loses a mean only if one of the two clusters had lost it |
| Means.JoinedExact | src/server/ClusteringManager.cpp:226-238 | the clusters the scan adds the click to are exactly those whose clicks end up in the cluster that took the click |
| MeanRuns.RunMeanLost | src/server/ClusteringManager.cpp:47-71 | over every run: the mean of an open or emitted cluster is NaN if and only if the cluster holds a click of ToT 0 that was added to a cluster of total ToT 0 |
| MeanRuns.LostByMerge | src/server/ClusteringManager.cpp:60-71 | three clicks after which a cluster with weight has lost its mean to one without that was merged into it |
| Packets.PackDecode | src/server/ClusteringManager.cpp:14-17 | the accessors read back the fields that were packed |
| Packets.DecodePack | src/server/ClusteringManager.cpp:14-17 | every 64-bit word is the packing of its fields |
| Packets.MeanBetween | src/server/ClusteringManager.cpp:48-50 | a mean that is a number lies between the least and the greatest coordinate of its clicks, whatever their weights |
| Packets.EmittedWord | src/server/ClusteringManager.cpp:73-79 | the masks of toRawValue drop nothing of a mean that is a number; a lost mean leaves the masked result of the undefined cast |
| Clustering.ClusterList.Add | src/server/ClusteringManager.cpp:91-93 | the cluster is appended |
| Clustering.ClusterList.RemoveAt | src/server/ClusteringManager.cpp:99-106 | swap with the last and pop, as Clusters.Remove |
| Clustering.ClusterList.AddClick | src/server/ClusteringManager.cpp:47-58 | slot ix becomes the cluster with the click, all other slots unchanged |
| Clustering.ClusterList.AddCluster | src/server/ClusteringManager.cpp:60-71 | slot ix absorbs slot from, all other slots unchanged |
| Clustering.ClusteringManager.PlaceClick | src/server/ClusteringManager.cpp:223-242 | the loop with removals inside it computes the scan, and a new cluster is added when nothing matched |
| Clustering.ClusteringManager.Expire | src/server/ClusteringManager.cpp:244-250 | the reverse loop computes the sweep and outputs the words of the swept clusters |
| Clustering.ClusteringManager.HandleOne | src/server/ClusteringManager.cpp:219-252 | one more click of the run; the output is the words of what it pushed out |
| Clustering.ClusteringManager.HandlePackets | src/server/ClusteringManager.cpp:212-274 | the run grows by the batch, the output is the words of all newly emitted clusters, and an open file grows by exactly these words, most significant byte first |
| Clustering.ClicksPacked | src/server/ClusteringManager.cpp:219-221 | a batch stands for one click per word, in order, and each word is the packing of its click |
| Clustering.ClusteringManager.Save | src/server/ClusteringManager.cpp:264-268 | the file grows by the words in big-endian order |
| Clustering.ClusteringManager.FlushOpen | src/server/ClusteringManager.cpp:199-210 | the words of all open clusters are output in list order and none stays open; the file is not written |
| ByteOrder.HtonlInvolution | include/server/CommsThread.h:14-20 | htonl undoes itself, so ntohl is its inverse |
| ByteOrder.HtonllInvolution | include/server/CommsThread.h:22-34 | htonll undoes itself |
| ByteOrder.HtonlStoresBigEndian | include/server/CommsThread.h:14-16 | storing htonl(x) on a little-endian host puts the most significant byte first |
| ByteOrder.HtonllStoresBigEndian | include/server/CommsThread.h:22-30 | so does storing htonll(x) |
| ByteOrder.BytesReversed | include/server/CommsThread.h:22-30 | the big-endian bytes are those on the host in the opposite order |
| ByteOrder.ClusterFileRoundTrip | src/server/ClusteringManager.cpp:264-268 | reading the cluster file eight big-endian bytes at a time gives back the words |
| Rollover.TrackAgrees | src/server/UdpConnectionManager.cpp:199-208 | over every plausible run of clicks and counter resets: the counter is the epoch of the largest true time since the last reset modulo 16, halfway holds iff that time is past the first quarter of its epoch, and the last ToA is the phase of the last click |
| Rollover.StampExact | src/server/UdpConnectionManager.cpp:202-215 | the published 38-bit time is true time since the last reset modulo 2^38, plus exactly one 34-bit period for a late click from before the latest wrap |
| Rollover.StampRightIff | src/server/UdpConnectionManager.cpp:202-215 | the stamp is right if and only if the click is of the latest epoch |
| Rollover.LateStartMissesWrap | src/server/UdpConnectionManager.cpp:202-208 | for every stream that starts in the last quarter of a period: its first wrap is missed if and only if no click before it was strictly in the middle half, and with which base the state agrees with true time then |
| Rollover.FollowAgrees | src/server/UdpConnectionManager.cpp:199-208 | agreement of the state with true time is kept over every continuation, from any state in which it holds |
| Rollover.LateStartAfter | src/server/UdpConnectionManager.cpp:202-215 | after a late start, over every continuation: each stamp is true time since the last reset, or, before any reset and if the first wrap was missed, one period too low |
| Rollover.LateStarts | src/server/UdpConnectionManager.cpp:202-208 | both cases occur |
| Rollover.DisorderBoundExact | src/server/UdpConnectionManager.cpp:199-208 | all streams that are at most j out of order with gaps of at most g are stamped right if and only if j + g is less than a quarter period, or g is 0 |
| Rollover.GapExact | src/server/UdpConnectionManager.cpp:202-210 | after a gap of any length: the stamp is right if and only if the number of epochs passed is, modulo 16, one when the last click was past the third quarter and this one is before the first, and zero otherwise |
| PublishedTimes.PublishTracks | src/server/UdpConnectionManager.cpp:181-217 | for any words after any history of clicks and resets: the state follows the history, and the times in the published words are the stamps of its clicks |
| PublishedTimes.PublishedTimeExact | src/server/UdpConnectionManager.cpp:193-215 | the time in every published word against true time, for any course of true times and resets that the history was observed from |
| RawPackets.AddrToPixel | src/server/UdpConnectionManager.cpp:187-189 | different addresses give different pixels, and x and y stay below 256 |
| RawPackets.PixelToAddr | src/server/UdpConnectionManager.cpp:187-189 | every pixel has an address |
| RawPackets.PublishedInRange | src/server/UdpConnectionManager.cpp:187-212 | the four fields of the published word never overlap |
| RawPackets.PublishLossless | src/server/UdpConnectionManager.cpp:187-213 | the published word reads back as packed, and the low 60 bits of the raw word can be computed from it |
| RawPackets.PublishConcat | src/server/UdpConnectionManager.cpp:181-217 | publishing one chunk after another gives the state and output of their concatenation |
| RawPackets.PublishKeepsClicks | src/server/UdpConnectionManager.cpp:181-213 | one word is published per click word, in order, each with the low 60 bits recoverable |
| PacketLayout.PackBits | src/server/UdpConnectionManager.cpp:167-172 | the published word is, bit by bit, x, y, ToT and time in 8, 8, 10 and 38 bits |
| PacketLayout.AddrBits | src/server/UdpConnectionManager.cpp:187-189 | x is address bits 0-1 and 3-8, y is address bits 2 and 9-15 |
| PacketLayout.FullToaBits | src/server/UdpConnectionManager.cpp:193-197 | the 34-bit time is the inverted fine time, the coarse time and the slow counter, bit by bit |
| PacketLayout.PublishedBits | src/server/UdpConnectionManager.cpp:187-212 | where every bit of the raw word and of the rollover counter ends up in the published word |
| PacketLayout.StoredBits | src/server/UdpConnectionManager.cpp:176-195 | the bits of a raw word are those of its eight bytes in the order in which they were received |
| Tpx3Files.ClickBytesAreClicks | src/server/UdpConnectionManager.cpp:108-114 | the groups selected by their eighth byte are exactly the words of type 0xB, in order |
| Tpx3Files.WordsStored | src/server/UdpConnectionManager.cpp:176-184 | word k of a buffer is the one that the host stores as bytes 8 k to 8 k + 7 |
| Tpx3Files.ChunkLayout | src/server/UdpConnectionManager.cpp:78-116 | nothing is written for a datagram that is refused or holds no click; otherwise the eight-byte header with the size and eight bytes a click |
| Tpx3Files.FileRoundTrip | src/server/UdpConnectionManager.cpp:78-116 | for any sequence of datagrams of at most 40000 bytes, a reader that follows the size field of each chunk gets exactly the click words of the datagrams that are a multiple of 8 bytes, in order |
| Tpx3Files.FileAppend | src/server/UdpConnectionManager.cpp:100-116 | writing one more datagram extends the file of the earlier ones |
| Tpx3Files.MatchesNext | src/server/UdpConnectionManager.cpp:78-120 | what is published for a further datagram matches the clicks in it |
| Udp.UdpConnectionManager.HandleMessage | src/server/UdpConnectionManager.cpp:67-76 | after any sequence of datagrams, resets and file changes: the words sent correspond one to one to the clicks received, their times are the stamps of the history, the rollover fields follow the history, and the file is that of the datagrams since it was opened |
| Udp.UdpConnectionManager.FileReads | src/server/UdpConnectionManager.cpp:100-116 | at any time a reader of the file gets exactly the clicks received since it was opened |
| Udp.UdpConnectionManager.TimesExact | src/server/UdpConnectionManager.cpp:202-215 | at any time the word sent for each click carries its true time since the last reset, or one period more if it is late |
| Udp.UdpConnectionManager.SetSaveFile | src/server/UdpConnectionManager.cpp:122-151 | an old file is closed; a new one starts empty or is not opened |
| Udp.UdpConnectionManager.ParseBytes | src/server/UdpConnectionManager.cpp:78-120 | the file grows by the datagram's chunk and its clicks are published; an empty or ragged datagram changes nothing |
| Udp.UdpConnectionManager.CountClicks | src/server/UdpConnectionManager.cpp:90-98 | the count is the number of eight-byte groups that are written |
| Udp.UdpConnectionManager.WriteChunk | src/server/UdpConnectionManager.cpp:100-116 | header, 16-bit little-endian size and click groups are appended |
| Udp.UdpConnectionManager.WriteGroup | src/server/UdpConnectionManager.cpp:111-112 | eight bytes of the buffer are appended |
| Udp.UdpConnectionManager.constructor | include/server/UdpConnectionManager.h:53-55 | the rollover state the theorems start from |
| Udp.UdpConnectionManager.PublishRawData | src/server/UdpConnectionManager.cpp:174-217 | the loop computes Publish: new rollover state and output words |
| Udp.UdpConnectionManager.HandlePacket | src/server/UdpConnectionManager.cpp:183-215 | one iteration: state and output word |
| Udp.UdpConnectionManager.ResetToaRolloverCounter | src/server/UdpConnectionManager.cpp:234-238 | only the counter is cleared, and the history records it |
| Tables.ForwardsHandled | src/server/TimepixConnectionManager.cpp:13-58 | every device command of COMMAND_MAP has a handler in HANDLER_MAP |
| ProtocolSafety.RunSafe | src/server/CommsThread.cpp:45-77 | the inductive invariant over every run: unless a frame in the log is the cause of something undefined, no dangling client pointer, no send out of turn, the device side idle, waiting, in flight or dead, the queue with at most the current client's command, replies matched to requests |
| ProtocolSafety.FaultExact | src/server/TimepixConnectionManager.cpp:232-248 | over every run: something undefined was done if and only if a frame longer than the command buffer was sent or a frame was received whose error code is not in the tables or whose length is below 16 |
| ProtocolSafety.ModerateSafe | src/server/CommsThread.cpp:45-77 | with requests of at most 252 words and no such frame from the device nothing undefined is ever done |
| ProtocolSafety.HandleSafe | src/server/PythonConnectionManager.cpp:132-173 | every request is either answered at once or the only queued command, unless its forwarding failed |
| ProtocolSafety.ReceiveSafe | src/server/TimepixConnectionManager.cpp:284-356 | whatever bytes arrive, the invariant holds or they are the cause of something undefined |
| ProtocolSafety.HandlersSafe | src/server/TimepixConnectionManager.cpp:119-120 | so it does after any number of ready completions |
| ProtocolSafety.SendSafe | src/server/TimepixConnectionManager.cpp:100-104 | a command is in flight after it was sent, or its frame did not fit |
| ProtocolSafety.StepSafe | src/server/CommsThread.cpp:45-72 | each part of a turn of the main loop keeps the invariant |
| ProtocolSafety.PollDeviceSafe | src/server/TimepixConnectionManager.cpp:96-135 | so does a poll of the device, with any completions, malformed replies, a network error or a module reset |
| ProtocolSafety.PollClientSafe | src/server/PythonConnectionManager.cpp:114-173 | so does a poll of the client, with any request |
| ProtocolReplies.ClientPolledClean | src/server/CommsThread.cpp:57-58 | whenever the client is polled the queue is empty and no last source is set |
| ProtocolReplies.ReplacementClean | src/server/CommsThread.cpp:47-52 | when the client manager is replaced nothing points to the old one |
| ProtocolReplies.OneInFlight | src/server/TimepixConnectionManager.cpp:98-117 | at most one command is queued or in flight, it is the current client's, and a reply from the device finds a client |
| ProtocolReplies.RepliesMatch | src/server/PythonConnectionManager.cpp:175-196 | no request gets two replies, and a reply that is no error starts with its request's own code |
| ProtocolReplies.UnansweredExact | src/server/CommsThread.cpp:45-72 | over every run and at any time: a request is unanswered if and only if its reply carried an unknown code, its forwarding failed, or it is the open request and its command is queued or in flight |
| ProtocolReplies.StoppedExact | src/server/CommsThread.cpp:45-77 | after the stop the last case means that its command was never sent |
| ProtocolReplies.LostForGood | src/server/CommsThread.cpp:45-77 | a request whose reply was unknown or whose forwarding failed stays unanswered in every continuation |
| ProtocolReplies.StoppedAllAnswered | src/server/CommsThread.cpp:45-77 | with a device that sends only known replies and secondary threads that answer: after the stop a request is unanswered if and only if it is still queued and was never sent |
| ProtocolReplies.RunningNoneLost | src/server/CommsThread.cpp:45-72 | meanwhile every request is answered, queued or in flight, and the client manager is never replaced |
| ProtocolReplies.UnknownReplyLoses | src/server/TimepixConnectionManager.cpp:366-375 | a reply with an unknown code leaves its request unanswered in every continuation of the run |
| ProtocolReplies.ClearedAccounted | src/server/TimepixConnectionManager.cpp:385-392 | telling the waiting client of an error keeps every request accounted for |
| ProtocolReplies.AnsweredFrame | src/server/TimepixConnectionManager.cpp:358-377 | so does processing a reply with a handler |
| ProtocolReplies.ResetAccounted | src/server/TimepixConnectionManager.cpp:106-116 | so does a module reset |
| ProtocolReplies.HandleAccounted | src/server/PythonConnectionManager.cpp:132-173 | so does handling a request |
| ProtocolReplies.ForwardAccounted | src/server/PythonConnectionManager.cpp:226-257 | so does forwarding one: it is answered, or lost if the call throws |
| ProtocolReplies.ReplaceAccounted | src/server/CommsThread.cpp:47-52 | a client manager is replaced only when its open request is lost already |
| ProtocolService.Delivered | src/server/TimepixConnectionManager.cpp:284-375 | a reply frame with any known command that arrives while a command is in flight, and whatever words follow it in the same read, reaches the client as its own code and the payload, or as error 993 if the payload has not the size that replies with that command have |
| ProtocolService.ResetServed | src/server/TimepixConnectionManager.cpp:106-116 | a module reset is sent and answered at once; the state after each way in which connecting anew can end |
| ProtocolService.RequestServed | src/server/TimepixConnectionManager.cpp:96-117 | from the arrival of a request to its answer, over any run without a stop in which the send completes in some poll and the reply arrives in some later one: the bytes sent to the device and the words the client gets |
| ProtocolService.RequestServedAtOnce | src/server/TimepixConnectionManager.cpp:96-117 | the same when both happen in the next poll |
| ProtocolService.UntilSent | src/server/TimepixConnectionManager.cpp:96-120 | until the send completes nothing happens but that the command is sent |
| ProtocolService.UntilReply | src/server/TimepixConnectionManager.cpp:272-282 | until the reply arrives nothing happens |
| ProtocolService.ReadyReached | src/server/CommsThread.cpp:45-58 | the server gets ready when the connection succeeds |
| ProtocolService.SendFits | src/server/TimepixConnectionManager.cpp:232-248 | the frame of a queued command fits the command buffer unless it is a pixel configuration of 253 words or more |
| ProtocolService.PixelConfigSent | src/server/PythonConnectionManager.cpp:198-205 | a pixel configuration of 1 + 48 k words is accepted and sent whatever its size, and the buffer is too small if and only if it has 253 words or more |
| ProtocolService.SixBlocks | src/server/PythonConnectionManager.cpp:198-205 | the smallest such request, 289 words |
| ProtocolService.StalledStays | src/server/TimepixConnectionManager.cpp:292-339 | after a refused frame nothing but the phase of the loop changes until a stop |
| ProtocolService.StalledStops | src/server/CommsThread.cpp:76-77 | a stop while a command is in flight answers the request with error 998 |
| ProtocolAnswers.AnsweredAtOnce | src/server/PythonConnectionManager.cpp:132-173 | the exact words of every request that is answered at once: 993 for a ragged one or a wrong number of words (one for the UDP port, 1 + 48 k for a pixel configuration), 500 for a UDP port, 999 for a code in no table; and nothing else changes |
| ProtocolAnswers.NotConnected | src/server/PythonConnectionManager.cpp:134-137 | without a connection every request gets error 998 |
| ProtocolAnswers.ForwardedAtOnce | src/server/PythonConnectionManager.cpp:226-257 | what the client gets for a request to another thread: that thread's words unchanged, 996 or 995 if it is not started or not connected, nothing if the call throws |
| ProtocolAnswers.NetworkError | src/server/TimepixConnectionManager.cpp:122-135 | a network error while a reply is awaited: the client gets error 998, the connection is dropped, and the loop ends after this turn |
| ProtocolAnswers.ConnectFails | src/server/TimepixConnectionManager.cpp:182-188 | a failed connection ends the loop after this turn, and a request in it gets error 998 |
| ProtocolAnswers.RefusedStalls | src/server/TimepixConnectionManager.cpp:292-339 | after a refused frame nothing is read any more, whatever else is ready in that poll |
| ProtocolAnswers.UnknownDeafens | src/server/TimepixConnectionManager.cpp:366-377 | a reply with an unknown code frees the device side and leaves the request open |
| ProtocolAnswers.FailureDeafens | src/server/PythonConnectionManager.cpp:251-255 | so does a failed call to another thread |
| ProtocolAnswers.DeafReplaced | src/server/PythonConnectionManager.cpp:114-130 | a client whose request is lost: its next receive fails, and within one turn of the loop the manager is replaced and the new one is ready to serve; the message in between is not received |
| Frames.ReplyRoundTrip | src/server/TimepixConnectionManager.cpp:292-354 | a frame in sendCommand's layout with the reply bit, followed by any words in the same read, passes every check of commandRecv and decodes to the same command and payload, an empty one as [0] |
| Frames.ParseWords | src/server/TimepixConnectionManager.cpp:292-352 | for any header and payload words: when the frame is accepted, and that the length field alone decides how many payload words are the data |
| Frames.WordsOfFrame | src/server/TimepixConnectionManager.cpp:297-308 | every string of whole words is the network form of its words, so ParseWords covers every frame |
| Frames.ParseFront | src/server/TimepixConnectionManager.cpp:336-352 | words received after an accepted frame change nothing |
| Frames.RefusedExact | src/server/TimepixConnectionManager.cpp:292-339 | which frames are refused, by their bytes |
| Frames.FrameLayout | src/server/TimepixConnectionManager.cpp:225-246 | the bytes of every command frame: the command, the frame's own length in bytes, eight zero bytes, and the payload words, each most significant byte first |
| Frames.BuildCommand | src/server/TimepixConnectionManager.cpp:232-246 | the message is the frame in network byte order, for any payload |
| Frames.CopyInto | src/server/TimepixConnectionManager.cpp:248 | the bytes are at the start of the buffer and the rest of it is unchanged |
| Frames.StoreAll | src/server/TimepixConnectionManager.cpp:232-248 | the bytes in memory of words that went through htonl are in network byte order |
| Frames.ReadReply | src/server/TimepixConnectionManager.cpp:292-351 | the checks in the code's order, with the lookup of the error code, and the payload loop |
| Frames.HarmfulExact | src/server/TimepixConnectionManager.cpp:310-341 | which frames lead outside a table or the buffer, by their bytes |
| SecondaryThreads.SecondaryThread.PollCommands | src/server/SecondaryThread.cpp:50-85 | a request of whole words is answered exactly once, with the exact words for its code, data and outcome, as unknown if and only if it is not for this thread; a ragged one is dropped, and the next poll cancels the thread |
| SecondaryThreads.SecondaryThread.HandleCommand | src/server/ClusterThread.cpp:36-137 | (and the same functions of UdpThread.cpp and HistogramThread.cpp) every branch answers exactly once, but for cluster parameters of fewer than three words: when the answer is data and which, and when it is which error code |
| SecondaryThreads.ForwardedReply | src/server/PythonConnectionManager.cpp:240-247 | the words of a serving thread are appended unchanged to what the client got, as the reply to its open request |
| SecondaryThreads.ServedByOne | src/server/PythonConnectionManager.cpp:63-82 | the forwarded codes are exactly those that some thread serves, and no two threads serve the same |
| SecondaryThreads.SecondaryThread.SendError | src/server/SecondaryThread.cpp:87-92 | the error code alone is sent |
| SecondaryThreads.SecondaryThread.SendResponse | src/server/SecondaryThread.cpp:94-104 | the last command's code and the data are sent |
| Protocol.SendData | src/server/PythonConnectionManager.cpp:188-192 | the words of a response: code, then data |
| Comms.CommsThread.PollSockets | src/server/TimepixConnectionManager.cpp:119-120 | ready completions are handled in order until one throws |
| Comms.CommsThread.FillCommandBuffer | src/server/TimepixConnectionManager.cpp:232-248 | the bytes sent are what is in the command buffer, the frame of the command, if it fits |
| Comms.CommsThread.PollDevice | src/server/CommsThread.cpp:55 | extends the run by the device's part of a turn |
| Comms.CommsThread.PollClient | src/server/CommsThread.cpp:57-58 | extends the run by the client's part of a turn |
| Comms.CommsThread.TakeTurn | src/server/CommsThread.cpp:45-74 | one turn of the loop, with a stop request in it or not, extends the run |
| Comms.CommsThread.LoopHead | src/server/CommsThread.cpp:45-52 | stop or another turn |
| Comms.CommsThread.Execute | src/server/CommsThread.cpp:45-77 | for any turns and stop request: the loop ends, its trace is a run of the state machine, and either a frame that does not fit or is harmful was the cause of something undefined, or all is shut down and every request was answered, was lost or was never sent; with honest and moderate traffic none is lost and nothing undefined is done |
| Comms.CommsThread.constructor | src/server/CommsThread.cpp:36-40 | the start of the run |
| Histograms.BinsDistinct | src/server/HistogramManager.cpp:93-98 | each pixel has a bin of its own |
| Histograms.Conservation | src/server/HistogramManager.cpp:57-71 | over any frames: the published bins of a pixel add up to its packets modulo 2^16, never exceed them, and add up to them if and only if no frame let the bin overflow |
| Histograms.OverflowOccurs | src/server/HistogramManager.cpp:98 | 65536 packets of one pixel in a frame leave its bin at zero |
| Histograms.HistogramManager.Conserved | src/server/HistogramManager.cpp:89-102 | the same at any time, with the current bin included |
| Histograms.HistogramManager.constructor | src/server/HistogramManager.cpp:9 | all bins are zero |
| Histograms.HistogramManager.HandlePackets | src/server/HistogramManager.cpp:89-102 | the bins count the packets since the last publication, modulo 2^16 |
| Histograms.HistogramManager.Poll | src/server/HistogramManager.cpp:56-71 | a message that is not empty is counted; when due, the bins are published and cleared |
| Pipeline.BinOfPublished | src/server/HistogramManager.cpp:93-98 | a published click is counted for a pixel if and only if its raw word has that pixel's address |
| Pipeline.PixelCounts | src/server/HistogramManager.cpp:89-102 | the packets counted for a pixel are exactly the raw clicks with its address |
| Pipeline.RawClicksConserved | src/server/HistogramManager.cpp:57-71 | the published bins of a pixel against the raw clicks with its address: congruent modulo 2^16, never more, equal if and only if no bin overflowed |
| ClusterTimes.PublishedTolerant | src/server/ClusteringManager.cpp:244-250 | for true times out of order by at most d: the published clicks are so too if and only if no late click (from before the latest wrap) is followed by one that is not late |
| ClusterTimes.EndToEnd | src/server/ClusteringManager.cpp:244-250 | then no click arriving once a cluster was swept out lies in its box |
| ClusterTimes.LateClickSweeps | src/server/ClusteringManager.cpp:244-250 | the first late click pushes out every open cluster |
| ClusterTimes.LateClickOccurs | src/server/UdpConnectionManager.cpp:202-215 | a plausible stream with a late click that is followed by others |
| TomlArrays.TotalLeafCount | ext/toml/include/toml.hpp:11895-11905 | the number of leaves in all nested arrays |
| TomlArrays.LeavesConcat | ext/toml/include/toml.hpp:11895-11905 | the leaves of two arrays in a row are those of one and then the other |
| TomlArrays.TomlArray.PreinsertionResize | ext/toml/include/toml.hpp:11770-11784 | a gap of null slots opens at the index, the tail moves behind it unchanged |
| TomlArrays.TomlArray.FlattenChild | ext/toml/include/toml.hpp:11907-11922 | the slots from dest on hold exactly the leaves of the child, all others are unchanged |
| TomlArrays.TomlArray.EraseEmpty | ext/toml/include/toml.hpp:11930-11949 | arrays without leaves are gone and no leaf is lost |
| TomlArrays.TomlArray.SpliceOne | ext/toml/include/toml.hpp:11963-11967 | one array is replaced by its leaves and no null slot is left |
| TomlArrays.TomlArray.SpliceAll | ext/toml/include/toml.hpp:11953-11968 | the second loop leaves exactly the leaves; it terminates |
| TomlArrays.TomlArray.Flatten | ext/toml/include/toml.hpp:11924-11971 | the array becomes exactly its leaves from left to right |
| TomlReaders.BufferedReader.ReadNext | ext/toml/include/toml.hpp:12972-13009 | for streams of any length: the cursor moves one on, but not past the end of file, and what is returned is the stream at the cursor |
| TomlReaders.BufferedReader.StepBack | ext/toml/include/toml.hpp:13011-13024 | the cursor moves back and what is returned is the stream at the cursor |
| TomlReaders.BufferedReader.StepBackBound | ext/toml/include/toml.hpp:13016-13017 | the asserted bound allows exactly the positions from max(0, furthest - 127) on |

## Left out

- ClusterRuns.RunExact: the settings stay fixed during a run, so a change of settings between batches is not modelled; a wrap of the 38-bit time is seen as a jump back in time.
- ProtocolSafety.RunSafe: what the program does after an access outside a buffer or table is not modelled; the run stops there.
- SecondaryThreads.SecondaryThread.PollCommands: path strings packed into words and what the thread does besides answering are not modelled; whether a file or socket opens and the words of the thread's address are inputs.
- Frames.ReadReply: the texts that error codes stand for are not modelled, only whether they are in the tables.
- TomlReaders.BufferedReader.ReadNext: codepoints are copied, so later overwriting of a returned pointer's target is not captured, nor the wrap of the history index at 2^64.
- TomlArrays.TomlArray.Flatten: moved-from child arrays and node ownership are values; that the emptied children are destroyed is not captured.
- Sockets, asio and ZeroMQ internals: sends succeed, and a request has at least one word.
- Rebinding the client's port after a replacement, and stopping the UDP thread then.
- Starting and stopping of the secondary threads, addresses of their sockets, and `bindUdpPort` beyond its reply.
- The `noreply` branch of `sendCommand`, `getCommandQueue` and `sendServerResetNotice`.
- The word "CLUSTERS" at the start of a cluster file, and opening that file.
- Rounding of floating-point arithmetic.
- Log messages, rate counters, debug output and the user interface.
- The rest of `toml.hpp` and the bundled asio headers.
