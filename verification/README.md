# Verification of the download path

A Dafny model of a BitTorrent client's way from a magnet link to files on disk: parsing the link, fetching
the info dictionary from many peers at once, downloading pieces from peers over the wire protocol, the
concurrent engine with its work channel, result channel and endgame race, and the writer that maps pieces to
files. `dafny verify dfyconfig.toml` checks everything.

Code that changes things step by step is modelled by classes and loops proved against functions of the input;
the concurrent parts are systems of steps, and what is proved of them holds of every interleaving.

The main result ties the parts together (`EngineTheorems.SuccessIsComplete`): whenever the download returns
without an error, whatever the workers, the network and the scheduler did, every piece was written exactly
once with data that matches its hash, and the files, taken end to end, are the published content. Its
counterpart (`EngineSuccess.CanSucceedIffVerifiable`): the download can succeed whenever every piece has data
that matches, and one peer that announces everything is enough.

## Modules

- `Bencode`, `BencodeLaws`, `BencodeCodec`, `BencodeGrammar`: the meaning of the format, its laws, the cursor
  parser and printer that compute it, and a grammar that says independently of them what is accepted, what it
  means, how everything else fails, and what is written.
- `Message`, `Bitfield`, `PeerConn`: wire framing and payloads, the bitfield, one connection.
- `Magnet`, `Metainfo`: info hashes in hex and base32; the info dictionary and the geometry of pieces.
- `Metadata`, `MetadataRace`: assembling the info dictionary from one peer, and the race of many peers.
- `Storage`, `PieceWriter`, `DiskWriter`: cutting pieces into file segments, the effect of writes, and the
  writer with its cache of open files.
- `PieceDownload`, `PieceDownloader`, `BufferOwnership`: the pipelined download of one piece, as a function of
  the messages and as it runs, and the buffer pool shared by concurrent downloads.
- `Endgame`: the tracker of the endgame race.
- `Engine`, `EngineInvariants`, `EngineTheorems`, `EngineProgress`, `EngineCrash`: the engine as a system of
  steps, what each step keeps, what follows for every run, when it can go on, and when a late worker stops it.
  `PeerSession` and `Collector` are its two sides as they run; `PeerKnowledge` follows what each worker hears;
  `EngineFlow` says where each step leads, and `EngineSuccess` when a download can succeed.

## Assumptions

They are preconditions of the theorems that need them.

- A torrent is consistent (`Metainfo.Consistent`): no negative file length, a piece length between 1 and
  2^32 - 1, and as many hashes as pieces, of which there is at least one. The parser checks none of this but
  the positive piece length.
- The paths of the files are pairwise distinct, and the files do not exist at the start.
- SHA-1 is a parameter. Where it matters, the hypothesis is that the published content has the published hashes
  and that none of the data handed to the writer (or assembled as an info dictionary) in the run at hand is a
  hash collision with it.
- Sums of lengths and offsets stay below 2^63.
- What the network, the timers and the disk decide is an input: the messages that arrive, how many sends and
  writes succeed, which step comes next.
- A buffer that a download returns is not changed afterwards, so results carry values; `BufferOwnership` is
  the proof of that, and `PieceDownloader.DownloadOwned` ties the download to it.
- Metadata buffers can be made up to a size that is a parameter, the largest that the machine allows.

## What is false of the code

Each with the input that shows it and the exact condition.

- The comment on the dictionary decoder says that keys must be sorted, but the loop does not check it
  (bencode/bencode.go:160-189): `BencodeLaws.KeyOrderIsNotChecked` proves that every order decodes.
- A torrent without pieces can make the engine wait forever: `EngineProgress.NeverStuckIffPieces` proves that
  some step is always enabled if and only if there is at least one piece.
- A peer that is discovered after all workers have gone can deliver on the closed result channel, which stops
  the program: `EngineCrash.ACrash` is such a run, and `EngineCrash.PunctualRunsGoOn` proves that there is none
  without such a discovery.
- A bitfield that is too short makes a worker miss pieces that the peer announces later:
  `PeerSession.ShortBitfieldMissesAPiece`; `PeerSession.KnowsWhatWasAnnounced` is exact for all lengths.
- Text of 32 bytes outside ASCII can pass as a base32 hash and give fewer than 20 bytes:
  `Magnet.LongSDecodesShort`; `Magnet.DecodedLength` proves that ASCII is the exact condition.
- An announced metadata size can stop the program: `MetadataRace.ANegativeSizeCrashes` is such a run, and
  `MetadataRace.CrashesOnBadSize` proves that exactly the sizes that are negative or too large to allocate do.

## Model

| member | source | states |
|---|---|---|
| EngineTheorems.SuccessIsComplete | torrent/torrent.go:316-360 | in every reachable state in which the download has returned nil, the log of writes has each piece exactly once with data of its hash, the disk after these writes is complete (each file is its slice of the content, all files end to end are the content), and the byte counter is the total length |
| EngineTheorems.SuccessSavesTheFiles | torrent/writer.go:140-159 | in every reachable success with the file list of the writer: the content of a single-file torrent is under its name, and file k of several has, under the name and its own path, exactly the part of the content between the summed lengths before it and after it |
| EngineSuccess.CanSucceedIffVerifiable | torrent/torrent.go:316-360 | a success is reachable if and only if every piece has some data of its length and hash |
| EngineSuccess.OnePeerSuffices | torrent/peer_session.go:40-150 | with such data, for every list of peers, a success is reachable in which one worker, whose peer announced every piece, has done all the work while no other worker has done anything, through endgame if there is more than one piece |
| EngineSuccess.SuccessAfterEndgame | torrent/torrent.go:349-353 | every success with more than one piece has gone through endgame |
| EngineTheorems.WrittenPiecesAreInPlace | torrent/torrent.go:336-342 | at every moment of every run, also while a write is in progress and after one has failed part-way, the bytes of every written piece are in place in the files |
| EngineTheorems.SuccessWritesAll | torrent/torrent.go:344-360 | success without any hypothesis on the hash: the log is a permutation of all pieces, each written once and verified |
| EngineTheorems.NoPieceIsLost | torrent/torrent.go:365-384 | before endgame is active each piece is in exactly one of channel, worker, collector's hand, completed; while the tracker is filled the uncompleted pieces already passed are in it; once active every uncompleted piece is in it |
| EngineTheorems.InChanIsPresence | torrent/torrent.go:243-261 | the count of a piece in the channel is positive exactly when it is there, and at most one only when it is not there twice |
| EngineTheorems.CarriersArePresent | torrent/peer_session.go:107-148 | the count of workers with a piece is positive exactly when some worker carries it, and at most one only when no two do |
| EngineTheorems.DuplicatesOnlyInEndgame | torrent/torrent.go:327-331 | a result that the collector has seen before can only arrive once endgame is active |
| EngineTheorems.RequeueNeverBlocks | torrent/peer_session.go:120-137 | in every reachable state the pieces in the channel and those held in normal mode fit its capacity, so a worker that requeues always finds room, before and after endgame starts |
| EngineTheorems.PiecesFitTheChannel | torrent/torrent.go:243 | channel content plus pieces carried by workers never exceed the number of pieces |
| EngineTheorems.CountersAgree | torrent/torrent.go:340-342 | done, Stats.Downloaded and the number of writes agree, and with the completed pieces up to the one being written; the byte counter is the sum of the sizes of the written pieces |
| EngineTheorems.TrackerAgrees | torrent/torrent.go:349-353 | in endgame the tracker holds exactly the uncompleted pieces without repeats, so Remaining is NumPieces minus completed; while the collector waits, endgame is on exactly when at least one piece is done and at most 20 remain |
| EngineTheorems.AtMostTwoWorkers | torrent/torrent.go:264-290 | in every run every address has at most two live workers, and the table counts them exactly |
| EngineTheorems.RacingFollowsTheSwitch | torrent/torrent.go:375-381 | a worker races only after the signal, when the tracker is active and holds every uncompleted piece |
| EngineTheorems.DownloadsAreValid | torrent/torrent.go:255-261 | every piece a worker downloads is the torrent's piece of that index, and meets what the piece download needs |
| EngineProgress.AlwaysAStep | torrent/torrent.go:316-360 | with at least one piece, some step other than the discovery of a peer is enabled in every reachable state until the collector returns or the program is stopped by a late delivery |
| EngineProgress.NoPiecesGetsStuck | torrent/peer_session.go:108-118 | without pieces, for every list of peers, a run into a state in which every worker waits and nothing can happen |
| EngineProgress.NeverStuckIffPieces | torrent/torrent.go:241-314 | until the collector returns or the program is stopped by a late delivery, some step is always enabled, if and only if the torrent has at least one piece |
| EngineCrash.PunctualRunsGoOn | torrent/torrent.go:297-314 | a run in which no peer is discovered after the wait for the workers has returned never sends on the closed result channel; with at least one piece it can go on until the collector returns |
| EngineCrash.ACrash | torrent/torrent.go:297-314 | for every list of peers: a run in which all workers fail to connect, the result channel is closed, and a peer that is discovered then delivers a piece on it, which stops the program |
| EngineCrash.CanCrashIffVerifiable | torrent/peer_session.go:148 | a send on the closed result channel is reachable if and only if some data passes the hash check of some piece, so the condition that excludes it is that of PunctualRunsGoOn |
| EngineProgress.WorkerCanStep | torrent/peer_session.go:83-149 | while the collector receives, every live worker can go on unless it waits for work and nothing is signalled |
| EngineInvariants.InvStep | torrent/torrent.go:241-384 | every step of the collector, of a worker and of the surroundings keeps the whole invariant: genuine work, exact tracker, agreeing counters, ordered switch, conserved pieces, capped workers |
| EngineInvariants.JudgeKeepsTracker | torrent/torrent.go:327-334 | marking a result completed takes exactly that piece out of the active tracker |
| EngineInvariants.WriteKeepsAccounts | torrent/torrent.go:336-347 | a successful write adds its piece to the log once and its size to the counters |
| EngineInvariants.AddKeepsTracker | torrent/torrent.go:366-374 | each turn of the loop that fills the tracker keeps it exact below the loop index |
| EngineInvariants.WorkKeepsCopies | torrent/peer_session.go:107-148 | a step of a worker (take, requeue, deliver, fail, pick) loses no piece and makes no copy of one |
| EngineInvariants.CollectKeepsConserved | torrent/torrent.go:365-384 | every step of the collector, the transition included, keeps each piece in exactly one place, or in at most one once endgame is active |
| EngineInvariants.WorkKeepsCapped | torrent/torrent.go:280-287 | a worker that ends is discounted exactly once |
| EngineInvariants.InitKeeps | torrent/torrent.go:242-261 | the filled channel holds each piece once, and everything else starts empty |
| Collector.Downloader.constructor | torrent/torrent.go:242-261 | the fill loop puts one piece of work an index into the channel, in order, with its own hash and size |
| Collector.Downloader.TransitionToEndgame | torrent/torrent.go:365-384 | the tracker gets the uncompleted pieces and is activated, the channel is drained, and then the signal is closed |
| Collector.Downloader.Mark | torrent/torrent.go:323-334 | a result is handed on if and only if it has not failed and its index was not completed, and is completed then, in the tracker too when it is active |
| Collector.Downloader.Record | torrent/torrent.go:336-342 | a successful write leaves the disk as the log says and counts the piece; a failed one leaves exactly the first bytes of the piece on the disk and counts nothing |
| Collector.Downloader.Proceed | torrent/torrent.go:344-353 | closes the done signal when all is written, enters endgame when few remain, goes on otherwise |
| Collector.Downloader.Collect | torrent/torrent.go:322-354 | one turn of the loop yields the books that the steps of the engine yield; disk and log agree, up to the first bytes of a piece whose write failed |
| Collector.Downloader.CollectAll | torrent/torrent.go:316-360 | for any series of results and no failed write, the collector succeeds if and only if the series contains every piece, and then the files hold the published content; however it ends, the written pieces are in place |
| Collector.ActiveWorkers.Start | torrent/torrent.go:268-275 | a worker is counted for its address only, and only below the limit of two |
| Collector.ActiveWorkers.End | torrent/torrent.go:280-287 | the worker is discounted for its address only, and an address without workers is forgotten |
| Collector.TransitionIsARun | torrent/torrent.go:365-384 | the transition method is a run of the engine's add, activate, drain and signal steps |
| Collector.CollectIsARun | torrent/torrent.go:322-354 | handling a result is a run of the engine's collector steps, which leaves the workers and the done signal as the method does |
| Collector.HandledKeeps | torrent/torrent.go:322-354 | handling a result keeps tracker, log and counters in agreement and completes exactly its piece |
| PeerSession.ReadInitialMessages | torrent/peer_session.go:44-77 | sends interested, then reads up to the first unchoke; succeeds if and only if the send does and an unchoke comes; the bitfield says exactly what was announced before the unchoke, as far as it reaches, and the messages behind it are left |
| PeerSession.WaitForUnchoke | torrent/peer_session.go:154-174 | succeeds if and only if an unchoke comes, and reads up to the first one; the bitfield has learned exactly the Have messages among what was read |
| PeerSession.KnowsWhatWasAnnounced | torrent/peer_session.go:61-73 | after any messages without an unchoke, with bitfields of any length, the worker knows of exactly the pieces that were announced since the last bitfield and that its bitfield reaches, and has no bitfield exactly when nothing was announced |
| PeerSession.GreetingEnds | torrent/peer_session.go:50-77 | the loop ends at the first unchoke if there is one, with the knowledge of the messages before it |
| PeerSession.FullBitfieldMissesNothing | torrent/peer_session.go:61-73 | a bitfield as long as the torrent needs says of every piece exactly whether it was announced |
| PeerSession.ShortBitfieldMissesAPiece | torrent/peer_session.go:61-71 | with nine pieces, a bitfield of one byte makes the worker miss the ninth, which the peer announces afterwards |
| PeerSession.WaitingLearnsHaves | torrent/peer_session.go:165-172 | while waiting for an unchoke a known bitfield keeps its length and gains exactly the pieces of the Have messages that it reaches; an unknown one stays unknown; what is read is a beginning of what arrives |
| PeerSession.WaitingEnds | torrent/peer_session.go:157-173 | waiting ends at the first unchoke if there is one, whatever else comes before it, and never otherwise |
| PeerSession.WorkersKeepTheirLimits | torrent/peer_session.go:16-38 | in every run a worker connects at most four times, leaves at fifteen misses in a row, and downloads only pieces its peer has as far as it knows, in normal mode and in the race |
| PeerKnowledge.WorkersKnowWhatWasSaid | torrent/peer_session.go:40-77 | in every run of the engine, at every moment of a session, the bitfield of a worker says exactly what its peer announced in this session, as far as the bitfield reaches |
| PeerKnowledge.LoadsOnlyWhatWasSaid | torrent/peer_session.go:99-132 | in every run a piece that a worker downloads, in normal mode or in the race, was announced by its peer in this session, unless the greeting announced nothing at all |
| PeerKnowledge.TakesWhatIsOffered | torrent/peer_session.go:113-129 | the other half: in every run a worker that took a piece from the channel goes on to download it, with its misses back at 0, if its peer announced nothing, or announced this piece and the bitfield reaches it; otherwise it puts it back; one of the two is always possible and nothing else |
| PeerKnowledge.RacesForWhatIsOffered | torrent/peer_session.go:99-106 | in every run a worker that looks for a piece to race for comes to download a held piece that its peer offers if there is one, and leaves the session exactly when there is none |
| EngineFlow.ConnectingGoesOn | torrent/peer_session.go:19-37 | before each connection the done signal is looked at; a good connection leads to the greeting; an exit is final |
| EngineFlow.SessionsEnd | torrent/peer_session.go:30-37 | a session ends exactly when the connection fails, the done signal is seen, there is nothing to race for, a download fails without a choke, or the fifteenth piece in a row is missing; the next one begins without a bitfield and without misses, unless it was the fourth |
| EngineFlow.SignalsDecide | torrent/peer_session.go:82-118 | at the top of the loop the done signal comes first, then the endgame signal: closed it leads to the race, open to the wait for work; a waiting worker takes the first piece of the channel or sees a signal |
| EngineFlow.WaitingIsForWork | torrent/peer_session.go:108-118 | a waiting worker can go on if and only if there is work or a signal is closed |
| EngineFlow.DownloadsEnd | torrent/peer_session.go:132-148 | a download hands over only data of the length and the hash of its piece, as it is; a failed one gives the piece back in normal mode only, and then waits for an unchoke exactly when it was choked |
| EngineFlow.PiecesGoBack | torrent/peer_session.go:120-137 | a piece that is put back goes to the end of the channel; a missing one counts one miss more |
| EngineFlow.ResultsArrive | torrent/peer_session.go:148 | a result is delivered exactly when the collector waits for one, unchanged, and the worker goes on at the top of its loop |
| EngineFlow.StartsBelowTwo | torrent/torrent.go:268-290 | in every run a worker is started for an address exactly when fewer than two are alive there |
| EngineFlow.SpawnsInOrder | torrent/torrent.go:292-308 | the initial workers are started in the order of the peers, before any result is received |
| EngineFlow.NewPeersAreServed | torrent/torrent.go:298-308 | in every run, from the last initial worker until the done signal, a newly found peer gets its worker |
| EngineFlow.RepeatsArePassedOver | torrent/torrent.go:322-334 | in every run a received result is passed over if and only if its piece has been written before, and otherwise goes to the writer as it is |
| EngineFlow.WritesLeadOn | torrent/torrent.go:336-353 | in every run a write leads to the end exactly when every piece is written, and into endgame exactly when for the first time at most 20 are missing |
| EngineFlow.ResultsEnd | torrent/torrent.go:356-360 | in every run, when the results end while the collector waits for one, the download has failed, unless there was nothing to download |
| EngineFlow.DrainedThenSignalled | torrent/torrent.go:375-383 | in every run the channel is drained piece by piece, and the endgame signal is closed when it is empty and not before |
| EngineFlow.SuccessIsSignalled | torrent/torrent.go:344-347 | in every run a success with at least one piece has closed the done signal |
| Endgame.EndgameTracker.AddPiece | torrent/endgame.go:41-47 | appends the piece unless its index is completed |
| Endgame.EndgameTracker.PickPiece | torrent/endgame.go:52-68 | None exactly when the peer has none of the held pieces, and otherwise the first that it has in the turn that begins at the new offset; the offset moves on by one if there is any piece |
| Endgame.EndgameTracker.Complete | torrent/endgame.go:73-88 | the first completion removes the piece by moving the last one into its place |
| Endgame.CompletingSwaps | torrent/endgame.go:76-87 | true exactly on the first completion; the last piece takes the place of the first one with this index, and all others keep theirs |
| Endgame.EndgameTracker.Remaining | torrent/endgame.go:91-95 | the number of held pieces |
| Endgame.PickIsComplete | torrent/endgame.go:52-68 | a pick gives nothing exactly when the peer has none of the held pieces, and otherwise a held piece that it has; nothing but the offset changes |
| Endgame.PicksAreFair | torrent/endgame.go:59-66 | of as many picks in a row as there are pieces, from any offset, each piece is picked exactly once |
| Endgame.CompleteRemoves | torrent/endgame.go:76-87 | the swap with the last piece removes exactly the completed index and keeps the rest distinct |
| PieceWriter.AnyOrderWritesTheContent | torrent/writer.go:40-59 | writing all pieces in any order, some possibly more than once, from absent files, leaves the files complete |
| PieceWriter.HoldsStep | torrent/writer.go:40-59 | writing one more piece keeps the bytes of all written pieces in place and adds its own |
| PieceWriter.HoldsAll | torrent/writer.go:96-132 | once all pieces are written each file is its slice of the content, with nothing behind it, and exists if it is not empty |
| PieceWriter.PieceWritesCommute | torrent/writer.go:40-59 | writes of different pieces give the same disk in either order |
| PieceWriter.PieceWriteIsIdempotent | torrent/writer.go:40-59 | writing a piece again with the same data changes nothing |
| PieceWriter.TornHolds | torrent/writer.go:43-56 | however many bytes of a piece of the content reach the disk, the bytes of the pieces written before stay in place |
| DiskWriter.FileWriter.constructor | torrent/writer.go:21-30 | the list of files of the torrent with their joined paths (what they hold in the end is EngineTheorems.SuccessSavesTheFiles), from no open files |
| DiskWriter.FileWriter.WritePiece | torrent/writer.go:40-59 | on success the disk has the piece in its files; however the call ends, exactly the first so many bytes of the piece are on the disk, in the right files at the right places, and nothing else has changed |
| DiskWriter.FileWriter.OpenFile | torrent/writer.go:62-81 | creates an absent file, leaves an existing one as it is, and caches the handle |
| DiskWriter.FileWriter.WriteFileAt | torrent/writer.go:51-54 | a write leaves all of the data, or when it fails some of its first bytes, at the offset of the file |
| Storage.PieceSegments | torrent/writer.go:96-132 | the loop with its skip and its early exit computes the segments of the piece |
| Storage.SegmentsTile | torrent/writer.go:106-129 | the segments lie inside their files, follow file order, lie end to end in the flat stream and add up to the range |
| Storage.TileMeans | torrent/writer.go:118-126 | byte r of segment s is the byte of the piece behind all earlier segments, at its place in the flat stream |
| Storage.FileOf | torrent/writer.go:106-129 | a flat position lies in exactly one file |
| Storage.WriteEffect | torrent/writer.go:43-56 | after the segment writes each file has its part of the data at its place, and no other path changes |
| Storage.FilesCoverContent | torrent/writer.go:140-159 | the lengths of the listed files add up to the total length |
| Metainfo.TotalLength | metainfo/metainfo.go:34-43 | the loop computes the total length |
| Metainfo.PiecesAbut | metainfo/metainfo.go:52-60 | no piece is empty or longer than the piece length, each begins where the one before ends, the last ends with the content |
| Metainfo.PieceSizesSum | metainfo/metainfo.go:46-60 | the sizes of all pieces add up to the total length |
| Metainfo.PieceOf | metainfo/metainfo.go:52-60 | every byte of the content lies in a piece |
| Metainfo.ParseUnverified | metainfo/metainfo.go:75-152 | the parser with its loops and its error returns computes the meaning of the dictionary |
| Metainfo.Parse | metainfo/metainfo.go:64-71 | the hash of the raw bytes is checked before they are parsed |
| Metainfo.InfoRoundTrip | metainfo/metainfo.go:75-152 | parsing the encoding of a well-formed info, whatever follows it, gives the same info with all its hashes in order |
| Metainfo.ParsesGoodInfos | metainfo/metainfo.go:75-152 | a decoded value is accepted if and only if it has a name, a positive piece length, whole hashes, and a length or else a non-empty list of good files; what is taken over are these parts, the hashes in order, 20 bytes each |
| Metainfo.FileAccepted | metainfo/metainfo.go:120-142 | a file is accepted if and only if it has a length and a path with at least one string |
| Metainfo.PathInOrder | metainfo/metainfo.go:133-141 | the path is the strings of the list, in their order, without the other elements |
| PieceDownloader.DownloadPiece | torrent/piece.go:47-140 | on a connection with any history: unless a send fails, the outcome is told by the messages alone (blocks of the piece and noise, then a choke gives Choked, a malformed piece message BadPiece, the end of the messages RecvFailed, and a full piece is decided by the hash); no error means the full length and the right hash; what is sent in addition are the requests up to some position; a failed call gives its buffer to the pool, a successful one keeps it out, and no other pooled buffer is written |
| PieceDownloader.DownloadBlocks | torrent/piece.go:75-130 | the loop on a buffer of its own: outcome and bytes are those of the messages, the requests those up to some position |
| PieceDownloader.SendRequests | torrent/piece.go:81-97 | the inner loop sends, behind whatever was sent before, the next requests up to the window |
| PieceDownloader.TakeBuffer | torrent/piece.go:56-67 | a buffer that is long enough and no longer pooled, from the pool or new |
| PieceDownloader.DownloadOwned | torrent/piece.go:56-73 | the effect of one call on the shared buffers, among other downloads that hold buffers, is a run of the steps of BufferOwnership, so its results apply |
| PieceDownload.RequestsTile | torrent/piece.go:81-97 | the requests are consecutive, non-empty blocks of at most 16384 bytes of the piece |
| PieceDownload.WindowIsFull | torrent/piece.go:78-96 | before every wait for a message sixteen requests are unanswered or everything is requested, and the window is never filled beyond sixteen; the backlog grows by the number of requests |
| PieceDownload.WhatStopsADownload | torrent/piece.go:99-130 | from any progress: as long as blocks and noise come and the piece is not full the loop goes on; a choke, a malformed piece message or the end of the messages then stops it, each with its own error |
| PieceDownload.FullPieceEnds | torrent/piece.go:80-130 | blocks and noise that fill the piece end the loop without an error |
| PieceDownload.FourKinds | torrent/piece.go:107-129 | every message is exactly one of these: a block of the piece, noise, a choke, a malformed piece message |
| PieceDownload.SyncedFill | torrent/piece.go:81-97 | filling the window keeps the backlog equal to the open requests, at most 16 |
| PieceDownload.SyncedAnswer | torrent/piece.go:108-121 | an answer to an open request closes it, fills in its block and counts its bytes |
| PieceDownload.ExactPeerDelivers | torrent/piece.go:80-130 | against a peer that answers each request exactly once, in any order amid keep-alives, other messages and useless blocks, the loop ends with the published piece and never waits with nothing outstanding |
| PieceDownloader.ExactPeerSucceeds | torrent/piece.go:132-139 | against such a peer the hash check passes and the result is the published piece, whatever the pooled buffer held |
| BufferOwnership.RunKeeps | torrent/piece.go:56-73 | every run of concurrent downloads keeps each buffer pooled, in use by one download, or delivered, and never two of these |
| BufferOwnership.DeliveredIsForever | torrent/piece.go:68-73 | from its delivery on a buffer never changes, returns to the pool or is used by another download, in any run |
| BufferOwnership.CallIsARun | torrent/piece.go:56-73 | taking a buffer, filling it, and giving it back or handing it out is a run of the steps |
| Metadata.ReadMetadataFromPeer | torrent/metadata.go:73-145 | waits for the handshake, requests all pieces, assembles them and parses: the outcome is that of the messages, unless a request cannot be sent; a size that cannot be allocated, on which the program stops, is the outcome CannotAllocate |
| Metadata.CollectPieces | torrent/metadata.go:92-142 | the assembly loop with its received flags and its counter |
| Metadata.CountIsFull | torrent/metadata.go:97-142 | the counter equals the number of received flags, so the loop ends exactly when every piece has arrived |
| Metadata.CollectAssembles | torrent/metadata.go:117-142 | if every data message is honest the assembled bytes are the published ones, for any order, repeats and noise |
| Metadata.CollectEnds | torrent/metadata.go:97-142 | the loop ends once a data message for every piece has arrived |
| Metadata.PublishedMessageIsHonest | torrent/metadata.go:117-125 | the message that a peer with the published bytes builds is an honest data message for its piece |
| Metadata.OnlyPublishedInfoIsReturned | torrent/metadata.go:144 | whatever a peer sends, only the published info is returned, unless the assembled bytes are a hash collision |
| Metadata.HonestPeerDelivers | torrent/metadata.go:73-145 | in terms of the bytes of the messages: a peer that announces the size of the published metadata and then sends every piece of it at least once, in any order, amid requests, rejects, other messages and undecodable text, delivers the published info, if a buffer of that size can be made |
| Metadata.SentBytesDecide | torrent/metadata.go:108-144 | whatever bytes a peer so sends, their hash is compared first and then their contents decide: the info or the reason of the failure |
| Metadata.FetchFails | torrent/metadata.go:76-142 | how a fetch fails, from the bytes of the messages: no handshake comes; the first handshake is no dictionary; it has no size or the size 0; no buffer of the size can be made; some piece never comes |
| Metadata.RepeatsChangeNothing | torrent/metadata.go:134-141 | of several data messages for one piece, with any bytes, only the first counts: without the others the outcome is the same |
| Metadata.SliceMeans | torrent/metadata.go:98-139 | there are as many pieces as 16384-byte parts of the metadata, each in its place, the last one what is left |
| Metadata.StopsOnBadSize | torrent/metadata.go:94-100 | the fetch ends in the failed allocation if and only if the handshake announces a size that is negative or above the largest buffer |
| Metadata.AnySizeCanBeAnnounced | peer/conn.go:163-188 | a handshake that announces a given int64 as the metadata size |
| Metadata.DedupPeers | torrent/metadata.go:148-161 | the known peers first and unchanged, every address of both lists, and no added peer whose address is there before it |
| MetadataRace.WinnerIsPublished | torrent/metadata.go:61-67 | whichever peer wins the race, the info that is returned is the published one, unless something assembled in this run is a hash collision |
| MetadataRace.FailsOnlyIfAllFail | torrent/metadata.go:61-70 | no metadata means that every single peer was tried, and its connection failed or its messages led to no info |
| MetadataRace.LateFetchesBail | torrent/metadata.go:31-36 | a fetch whose turn comes after a peer has won asks nobody; before, it tries its peer |
| MetadataRace.FetchesMakeRoom | torrent/metadata.go:24-58 | in every run a fetch begins exactly when fewer than ten are under way, sends its result as it is, and makes room for another when it ends |
| MetadataRace.ReceivesInOrder | torrent/metadata.go:62-70 | in every run the results are received in the order in which they were sent; the first info ends the race, and it gives up exactly when all peers have failed |
| MetadataRace.SendNeverBlocks | torrent/metadata.go:21-58 | at most ten fetches run at a time, and a fetch can always send its result |
| MetadataRace.NeverStuck | torrent/metadata.go:26-67 | until the race returns or an announced size stops the program, some step is enabled: the receiver never waits for a result that nobody will send, although late fetches send none |
| MetadataRace.CrashesOnBadSize | torrent/metadata.go:94-100 | the program is stopped exactly in the runs in which the handshake of some peer announces a size that is negative or above the largest buffer |
| MetadataRace.PanicIsTheOutcome | torrent/metadata.go:94-100 | the condition under which the race is stopped is the one under which the fetch itself ends in the failed allocation |
| MetadataRace.ANegativeSizeCrashes | torrent/metadata.go:94-100 | a run in which the first peer announces the size -1 and stops the program |
| MetadataRace.CanCrashIffPeers | torrent/metadata.go:26-58 | a peer can stop the program if and only if there is at least one |
| PeerConn.Conn.HandleExtensionHandshake | peer/conn.go:163-188 | the extension table and the metadata size are taken over when they have the right types; a bad handshake changes nothing |
| PeerConn.Conn.RequestMetadataPiece | peer/conn.go:191-214 | sends the bencoded request under the peer's extension number, or fails without it |
| PeerConn.MetadataPieceRoundTrip | peer/conn.go:218-240 | the payload behind the bencoded header of a data message is recovered exactly, whatever else the header says |
| PeerConn.OnlyDataParses | peer/conn.go:218-240 | a bencoded header with any bytes behind it is a data message if and only if it is a dictionary whose msg_type is 1 and whose piece is an integer; requests and rejects are none |
| PeerConn.RequestMeans | peer/conn.go:191-214 | the request is an extended message under the number that the peer chose, and its text decodes to the message type 0 and the piece |
| PeerConn.TableMeans | peer/conn.go:174-181 | of the peer's table exactly the integer entries are kept, with their numbers |
| BencodeCodec.DecodeBytes | bencode/bencode.go:34-42 | the cursor parser computes the value and the bytes consumed, or the error |
| BencodeCodec.Reader.DecodeInt | bencode/bencode.go:76-107 | the loop up to the end mark and the bounded parse of the token |
| BencodeCodec.Reader.DecodeString | bencode/bencode.go:110-137 | the length scan and the bytes behind it |
| BencodeCodec.Reader.DecodeList | bencode/bencode.go:140-158 | the loop with its look-ahead for the end mark |
| BencodeCodec.Reader.DecodeDict | bencode/bencode.go:162-189 | the loop over keys and values; a repeated key replaces the value |
| BencodeCodec.Encode | bencode/bencode.go:46-52 | the printer writes the canonical text (BencodeGrammar.EncodesCanonically says which that is), and fails exactly on values with an unsupported type inside |
| BencodeCodec.Buffer.EncodeDict | bencode/bencode.go:210-224 | the entries in ascending order of their keys (in the order of BencodeGrammar.LessMeans), whatever order the map yields them in |
| BencodeGrammar.DecodesTheGrammar | bencode/bencode.go:54-189 | the decoder accepts a text, with this value and this length, if and only if it begins with a text of the grammar that means this value and has this length: which numbers and lengths are good is said by the grammar |
| BencodeGrammar.CutShortIsEOF | bencode/bencode.go:54-189 | every proper beginning of an accepted text fails with UnexpectedEOF |
| BencodeGrammar.FailuresAreNamed | bencode/bencode.go:54-107 | an unknown first byte is InvalidFormat, and a token that is no number of the grammar InvalidInteger |
| BencodeGrammar.BadLengthIsNamed | bencode/bencode.go:110-137 | a length with another byte among its digits, or above the largest int64, is InvalidString |
| BencodeGrammar.DigitsArePositional | bencode/bencode.go:102-126 | digits are read in the decimal system, the first the most significant |
| BencodeGrammar.LessMeans | bencode/bencode.go:217 | of two keys the one with the smaller byte at the first difference comes first, or the proper prefix |
| BencodeGrammar.EncodesCanonically | bencode/bencode.go:191-229 | what is written is the text of the grammar, for the normalised value, whose numbers have no needless sign or zero and whose dictionaries have strictly ascending keys |
| BencodeLaws.RoundTrip | bencode/bencode.go:46-229 | decoding an encoding, whatever bytes follow, gives the normalised value and consumes exactly the encoding |
| BencodeLaws.KeyOrderIsNotChecked | bencode/bencode.go:160-189 | a dictionary text decodes to the same value in every order of its keys |
| BencodeLaws.EncodingIdentifiesValues | bencode/bencode.go:191-229 | two values have the same encoding if and only if they have the same normal form |
| BencodeLaws.DecodeIsLocal | bencode/bencode.go:34-42 | a successful decode does not depend on anything behind the bytes it consumes |
| BencodeLaws.DecodeIsPrefixFree | bencode/bencode.go:34-42 | no proper prefix of the consumed bytes decodes |
| BencodeLaws.DecodedReencodes | bencode/bencode.go:54-229 | whatever text is accepted, its value encodes, that decodes to the same value, and encoding it again writes the same bytes |
| BencodeLaws.FormatIntParses | bencode/bencode.go:199-202 | every int64, the smallest included, is read back from its decimal form |
| Bencode.SortedArrangementUnique | bencode/bencode.go:213-218 | a set of keys has only one ascending order, so the canonical text does not depend on the map's order |
| Message.WriteMessage | peer/message.go:73-86 | the length-prefixed form, whose length field keeps 32 bits |
| Message.Stream.ReadMessage | peer/message.go:45-70 | reads one message or keep-alive, or fails on a short stream or an oversized length |
| Message.FrameRoundTrip | peer/message.go:45-86 | a message is read back if and only if it fits the limit of 16 MiB |
| Message.StreamRoundTrip | peer/message.go:45-86 | a series of messages is read back message by message |
| Message.PayloadsRoundTrip | peer/message.go:89-142 | request, have and piece payloads parse back to their parts |
| Message.ParsedPayloadsRebuild | peer/message.go:115-142 | a payload that parses is the one built from its parts |
| Message.BigEndian | peer/message.go:79-92 | of the four bytes of a number the first is the most significant |
| Message.Layout | peer/message.go:12-107 | what stands where in a frame and in the payloads, and the numbers of the messages |
| Message.CutFrameIsEOF | peer/message.go:45-64 | every proper beginning of a frame fails with UnexpectedEOF |
| Message.OversizedIsRefused | peer/message.go:57-59 | a length above 16 MiB is refused whatever follows it |
| Message.WrongLengthsFail | peer/message.go:115-142 | payloads fail to parse exactly when their length is wrong |
| Bitfield.SetPieceEffect | peer/conn.go:246-262 | setting a piece makes exactly that piece present if the field is long enough |
| Bitfield.PieceIsABit | peer/conn.go:246-253 | piece i is present exactly when the bit of weight 2^(7 - i % 8) of byte i / 8 is one, in the arithmetic of numbers |
| Bitfield.FreshHasNone | peer/conn.go:246-267 | a fresh bitfield has no piece |
| Magnet.DecodeBase32 | magnet/magnet.go:100-123 | for every text, ASCII or not: the decoded bytes are the number of the upper-cased text without its spare bits, None exactly when some character is not in the alphabet |
| Magnet.AccumulatorEmits | magnet/magnet.go:112-119 | emitting a byte keeps: bytes so far times 2^nBits plus bits is the base-32 number read so far, with bits below 2^nBits |
| Magnet.Base32RoundTrip | magnet/magnet.go:100-123 | the inverse of section 6 of RFC 4648 without padding, in either case |
| Magnet.AlphabetOrder | magnet/magnet.go:102-109 | a digit is its position in the alphabet of section 6 of RFC 4648 |
| Magnet.CaseIsIgnored | magnet/magnet.go:78-101 | two texts that differ only in the case of their letters decode to the same, in base32 and in hex |
| Magnet.HexMeans | magnet/magnet.go:78-84 | two hex digits make a byte, the first its higher half |
| Magnet.HexAccepts | magnet/magnet.go:78-84 | hex is accepted exactly when it is an even number of hex digits |
| Magnet.HexOrder | magnet/magnet.go:78-84 | a hex digit is its position among 0-9 and a-f, in either case |
| Magnet.ParseInfoHash | magnet/magnet.go:67-97 | for every text: the prefix, then 40 bytes of hex or 32 bytes of base32, giving 20 bytes, or the error; base32 text outside ASCII gives the decoded bytes followed by zeros |
| Magnet.DecodedLength | magnet/magnet.go:85-91 | 32 bytes of base32 text that decode give a whole 20-byte hash if and only if the text is ASCII |
| Magnet.LongSDecodesShort | magnet/magnet.go:100-111 | sixteen times the long s, whose upper case is S, is accepted and gives ten bytes |
| Magnet.InfoHashFormsDecode | magnet/magnet.go:74-94 | both printed forms of a hash decode to it |

## Left out

- Sockets, HTTP and UDP tracker announces, DHT, URL parsing, timers, sleeps and deadlines, the terminal display: I/O and library behaviour. A deadline appears as a connection that fails.
- The handshake bytes of `Dial`, and the compact address encodings: they would add only easy members.
- SHA-1: a parameter.
- Liveness and shutdown of workers: a worker may wait forever to deliver after the download has returned, since torrent/peer_session.go:148 has no other way out. After a send on the closed result channel the step system stops.
- Retry limits per piece: `NumTries` and `MaxPieceTries` are never used by the code.
- A worker's whole session as one method: it shares channels with the others, so it is the worker steps of the engine; its two message loops are methods.
- Reads and writes of several shared variables that the code does under one lock, or on variables that only one goroutine sees, are one step.
- EngineTheorems.AtMostTwoWorkers: the table is decremented and the wait group released in one step.
- Creation of directories, zero-length files on piece boundaries, and files that exist before with more content: the writer opens without truncation, so the theorems assume absent files.
- Closing the files: `Writer.Close` has no effect on their content in the model.
- Wrap-around of sums of lengths and of the tracker's offset at 2^63.
- A declared string length too large to allocate is treated as the end of the input.
- MetadataRace.CrashesOnBadSize: a fetch that runs on after the race has returned can still stop the program; the step system says so, but what the rest of the program does meanwhile is not part of it.
- Magnet links that are not valid UTF-8: a text is a series of characters.
- The count of downloaded bytes against a peer that repeats blocks: repeated blocks are counted again, so "all bytes filled" is proved only for a peer that answers exactly once.
- Endgame.CompleteRemoves: asks for distinct indices: `AddPiece` itself rejects only completed ones; the engine's invariant supplies distinctness.
