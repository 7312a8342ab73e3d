# amused, modelled and proved in Dafny

amused is a music player daemon. A *main* process keeps the playing queue and
serves clients over a control socket; a *player* process decodes and plays; a
command line program talks to main; an optional web front end serves the same
queue over HTTP and WebSocket. This project models the parts of it that keep
state and promise something about it, and proves those promises over every
input, every run and every way the kernel splits reads and writes.

`dafny verify dfyconfig.toml` checks the whole project.

## How the project is laid out

| files | what they model |
|---|---|
| `Common` | optional values, concatenation, exchanging two elements |
| `ImsgReader`, `ImsgFormat`, `ImsgChannel`, `ImsgDescriptors`, `ImsgLoss`, `ImsgDrain`, `ImsgMessages` | message framing between the processes, on values: the resumable reader against a one-shot parser, the kernel as a chooser of how many bytes move and whether a descriptor slot is free, descriptors as cells that travel with bytes |
| `Ibufs`, `Imsgbufs`, `ImsgWire` | the buffers and the message queue as objects, each method proved against the value model, and two such objects over a socket pair |
| `Timevals`, `TimerHeap`, `TimerSweep`, `TimerTable`, `TimerRuns` | the timer heap, the sweep of one tick, and the table of pending timers they refine |
| `EventLoop`, `EventRuns` | the timer half of the event loop over one array with its gap and reserve, and whole runs of it |
| `Playlist`, `Shuffle`, `Daemon`, `MainEffects`, `Transactions` | the playing queue and the main process on values, what each request and each end of a track leads to, and what holds over runs of clients |
| `SongList`, `Deck`, `MainProcess`, `MainRuns` | the same as objects: arrays, shifting, swapping and searching loops, dispatch loops, and whole runs of events on the object |
| `Player`, `System`, `PlayerLink` | the player process as an object, clients, main and player as one state machine over two channels, and main's messages to the player over imsgbufs |
| `CanonPath`, `CanonLaws`, `LoadShow` | the in-place path canonicaliser, the laws of what it computes, and `show` piped into `load`, with marks or without |
| `Sha1Spec`, `Sha1Example`, `Sha1`, `Sha1Context`, `Base64` | SHA-1 as FIPS 180-4 defines it, a published digest worked through, the circular-block code and the streaming context, and the accept key of the WebSocket handshake |
| `BufIo`, `Chunked`, `Http`, `WebSocket`, `WsSession` | growing buffers, the chunked body writer and a decoder of section 7.1 of RFC 9112, frames of section 5.2 of RFC 6455 in both directions |

Where the program changes state in place, a class has the same fields and its
methods are proved against functions on values; the promises are then proved
about those functions. The byte order of the machine is a parameter wherever
the program depends on it. Which paths open as regular files, which songs
contain the argument of a jump, random numbers, the outcome of `poll`, `read`
and `write`, and what a timer callback does are parameters too, so every
theorem holds for all of them.

## What turned out not to hold as one might expect

* In every run that has delivered everything, the descriptors passed with messages
  have all reached their own messages exactly when no read stopped inside a header
  that announces one and none came while the receiver had no slot free (recvmsg then
  fails with EMSGSIZE and is repeated without it); otherwise some message that
  announced one has come without any
  (`ImsgLoss.DescriptorsArriveIff`, `ImsgMessages.DescriptorsArrive`). For every
  message with a descriptor there are two runs that lose it while it arrives whole
  and nothing is left under way: its first byte is written and read alone
  (`ImsgMessages.CutCallLoses`), or it is read without a free slot
  (`ImsgMessages.DropCallLoses`). A PLAY that came without its descriptor ends the
  player, so that happens only after such a read, and after one the player never
  gets through all messages (`PlayerLink.PlayerMeetsLoss`). Messages themselves are
  never lost: every run can be completed so that all of them are got
  (`ImsgMessages.EveryRunCompletes`).
* Cancelling a timer inside the heap never moves the replacement up. The heap
  survives a removal exactly when the last timer is not earlier than the
  parent of the removed one (`TimerHeap.RemoveKeepsHeapIff`), and after an
  unlucky cancel the root is not the minimum
  (`TimerHeap.InteriorCancelHidesMinimum`). Which timers a tick fires does not
  depend on the order (`TimerSweep.SweepExact`).
* The end of an older track can reach main after it has started a newer one.
  If main then finds nothing to play, it stops while the newer track may go on.
  Main and player agree in every run without such an end
  (`System.MainAndPlayerAgree`). After one they still go on to agree if main was
  stopped already or the end of the latest track is on its way too, and otherwise
  there is a run that leaves them apart with nothing under way
  (`System.StaleEndBreaksAgreementIff`); `System.StaleEndExample` is one from the
  start.
* Going back drops a song that does not open and then steps over the one before
  it. With or without repeat all it looks at every other song, so the nearest
  song that opens is found exactly at odd distances
  (`Playlist.PreviousFindsNearestIff`, `Playlist.PreviousFindsOdd`); a concrete
  queue goes wrong in both modes (`Playlist.PreviousSkips`). With repeat all it
  goes round the list until something opens (`Playlist.PreviousLooksBack`,
  `Playlist.PreviousFindsSomeIff`).
* The canonical form of the root directory is the empty string, so a second
  pass gives the working directory instead (`CanonPath.IdempotentIff`). And
  `show` prints names as they are, so a name with a newline takes two lines.
  `load` restores a shown queue exactly when every song is canonical, without
  newlines and shorter than PATH_MAX, and none is the empty string unless `load`
  runs in the root directory (`LoadShow.LoadRestoresIff`, over runs of the
  daemon `LoadShow.ShowLoadIdentity`). The add command does store such songs:
  `add /` stores the empty string, and newlines are accepted.
* `load` takes the last character off every line, also off a last line that does
  not end in a newline, so such a line names another file
  (`LoadShow.LastLineIsCut`).
* The WebSocket unmasking takes the mask in the byte order of the machine. It
  is right for every key on a little-endian machine, and on a big-endian one
  exactly for keys that read the same both ways (`WebSocket.BigUnmasksIff`).
* The route of a WebSocket connection takes one frame per event, so frames that
  arrive in fewer reads than there are frames wait in the buffer for another
  event (`WsSession.FramesWait`, and for two frames `WsSession.SecondStays`).
* The SHA-1 bit count is taken modulo 2^64. FIPS 180-4 defines no digest
  beyond that, so the difference lies outside the standard.

## Model

| member | source | states |
|---|---|---|
| ImsgReader.ConsumeIsParse | compat/imsg-buffer.c:755-804 | one run of the reader over its residue finds the frames, the failure and the remainder that a one-shot parse of the held bytes finds, and leaves no residue while a message is half built |
| ImsgReader.AnyReadsAgreeWithBatch | compat/imsg-buffer.c:755-804 | for any byte stream, well formed or not, cut into any reads: the same frames, and failure at the same frame, as one parse of the whole stream |
| ImsgReader.ReadsConserveBytes | compat/imsg-buffer.c:755-804 | frames delivered, message half built and residue together are exactly the bytes read; the residue is shorter than a header and empty while a message is half built |
| ImsgReader.ParseSplit | compat/imsg-buffer.c:763-793 | parsing two pieces of a stream one after the other, from what the first left, is parsing their concatenation |
| ImsgReader.DescriptorHasOneOwner | compat/imsg-buffer.c:755-804 | a descriptor received in a read goes to the first message begun in that read whose header is marked, to no other, and is left over to be closed exactly when there is none |
| ImsgFormat.DecodeEncode | compat/imsg.c:112-133 | a composed message has the announced length and mark, is accepted by the header parser when it fits, and decodes to the same type, id, pid and payload, in either byte order |
| ImsgFormat.Layout | compat/imsg/imsg.h:52-57 | type, length, id and process id are four bytes each, in this order, with the payload behind them, and the highest bit of the length marks a descriptor |
| ImsgFormat.HostOrder | compat/imsg.c:189-205 | each of them in the byte order of the host |
| ImsgFormat.PatchLen | compat/imsg.c:336-346 | overwriting the four bytes of the length field when a message is closed changes the length and nothing else |
| ImsgChannel.DrainIsDrop | compat/imsg-buffer.c:941-957 | draining any number of bytes from a queue of buffers drops exactly that many bytes of their concatenation |
| ImsgChannel.DrainAll | compat/imsg-buffer.c:941-957 | draining everything empties the queue when no buffer in it is empty |
| ImsgChannel.NextInv | compat/imsg-buffer.c:643-957 | composing, any partial write, any read and getting a message keep: what was delivered, what is half read and what is in flight are together the messages posted, in order |
| ImsgChannel.DeliveredInOrder | compat/imsg-buffer.c:643-957 | over every run from the empty channel the reader never fails, the messages delivered are a prefix of those posted, and they are all of them once nothing is in flight |
| ImsgChannel.RunPosted | compat/imsg-buffer.c:923-931 | what has been posted in a run is exactly what was accepted for posting |
| ImsgDescriptors.ConsumeMatches | compat/imsg-buffer.c:755-804 | with no marked header cut and one descriptor at most in a read, every message gets the descriptor it was sent with |
| ImsgDescriptors.LossFreeDelivers | compat/imsg.c:354-379 | over every run in which no read stops inside a marked header or leaves a descriptor behind for lack of a slot, every delivered message has its own descriptor |
| ImsgLoss.ConsumeKeepsFds | compat/imsg-buffer.c:755-804 | a read hands on exactly the descriptor held and the one received, in that order, or leaves the received one over |
| ImsgLoss.RunInOrder | compat/imsg-buffer.c:755-912 | over every run the descriptors got, held and under way are those sent, in order, or fewer, and once fewer they stay fewer; and only messages that announce one get one |
| ImsgLoss.LossFewer | compat/imsg-buffer.c:795-877 | a read that stops inside a marked header, or for which there is no slot for the descriptor it brings, leaves fewer descriptors than were sent |
| ImsgLoss.DescriptorsArriveIff | compat/imsg-buffer.c:755-912 | over every run, with any descriptor numbers, once everything is delivered: every message has its own descriptor if and only if no read stopped inside a marked header or left a descriptor behind, and otherwise some message comes without the one it announces |
| ImsgLoss.CutRunLoses | compat/imsg-buffer.c:795-803 | for every message with a descriptor, the run in which its first byte is sent and read alone: it arrives whole, everything is delivered, and its descriptor is lost |
| ImsgLoss.DropRunLoses | compat/imsg-buffer.c:865-877 | for every message with a descriptor, the run in which it is read whole without a free slot: it arrives whole, everything is delivered, and its descriptor is lost |
| ImsgDrain.DrainsWithoutLoss | compat/imsg-buffer.c:643-957 | from every state the invariant allows there are writes, reads and gets, none of them losing a descriptor, after which queue, wire and collected messages are empty |
| ImsgDrain.EveryRunCompletes | compat/imsg-buffer.c:643-957 | every run can be completed without posting more: then everything posted has been got, byte for byte and in order, and with its own descriptors if and only if none was lost before |
| ImsgMessages.MessagesArrive | compat/imsg.c:189-205 | for every list of imsg_compose calls and every way the kernel splits writes and reads: what imsg_get returns is a prefix of what was composed, with type, id, pid and payload, and all of it once the channel is drained; calls over the size limit are refused and change nothing |
| ImsgMessages.DescriptorsArrive | compat/imsg.c:336-379 | over every run, once all messages have been got: messages and descriptors equal those composed if and only if no read cuts a marked header or leaves a descriptor behind, and otherwise imsg_get_fd finds none for some message composed with one |
| ImsgMessages.CutCallLoses | compat/imsg.c:189-205 | whatever is composed with a descriptor and fits the read buffer, there is a run in which imsg_get returns it with all fields and imsg_get_fd returns none |
| ImsgMessages.DropCallLoses | compat/imsg-buffer.c:865-877 | the same with a run that reads the message whole while no slot is free, as the comment in the code says |
| ImsgMessages.EveryRunCompletes | compat/imsg.c:189-205 | from wherever any run has led, all that was composed can still be got without composing more, with its own descriptors if and only if none was lost before |
| Ibufs.Ibuf.Reserve | compat/imsg-buffer.c:100-134 | succeeds exactly within the maximum and the width of size_t and never on a buffer on the stack; the bytes written so far stay |
| Ibufs.Ibuf.Add | compat/imsg-buffer.c:136-146 | appends the data, or changes nothing |
| Ibufs.Ibuf.Set | compat/imsg-buffer.c:243-266 | overwrites the data inside the written part in place, or refuses and changes nothing |
| Ibufs.Ibuf.Get | compat/imsg-buffer.c:409-419 | takes the front of the unread part, or refuses and moves nothing |
| Ibufs.Ibuf.GetIbuf | compat/imsg-buffer.c:422-433 | hands out the front of the unread part as a buffer of its own |
| Ibufs.Ibuf.FdGet | compat/imsg-buffer.c:538-549 | the descriptor leaves the buffer with the first call |
| Ibufs.Ibuf.FdSet | compat/imsg-buffer.c:551-562 | the new descriptor replaces the old one, which is closed |
| Ibufs.IbufDynamic | compat/imsg-buffer.c:75-98 | a growing buffer exists exactly for a positive maximum not below the first size |
| Imsgbufs.Imsgbuf.ParseHeader | compat/imsg.c:354-379 | accepts a header exactly with a length between the header size and the limit, makes a buffer of that length, and takes the descriptor exactly when the mark is set |
| Imsgbufs.Imsgbuf.Turn | compat/imsg-buffer.c:763-793 | one round of the loop: begin a message or fill the current one, and whether the loop goes on |
| Imsgbufs.TurnResumes | compat/imsg-buffer.c:763-793 | any round leaves exactly the rest of the run to do, and a further round has fewer bytes, so the loop ends with the outcome of the whole run |
| Imsgbufs.Imsgbuf.ReadProcess | compat/imsg-buffer.c:755-804 | the loop over the read buffer delivers, keeps and fails as the value reader does, moves the residue to the front, and closes a descriptor nobody claimed |
| Imsgbufs.Imsgbuf.Read | compat/imsg-buffer.c:837-912 | a read feeds its bytes and its first descriptor to the reader and closes further descriptors; no data, end of file and errors change nothing |
| Imsgbufs.Imsgbuf.Get | compat/imsg.c:112-133 | the oldest message leaves the queue, decoded, with its payload and its descriptor |
| Imsgbufs.Imsgbuf.Enqueue | compat/imsg-buffer.c:923-931 | the buffer goes to the end of the queue |
| Imsgbufs.Imsgbuf.Dequeue | compat/imsg-buffer.c:933-939 | the first buffer leaves the queue, and its descriptor is closed if it still has one |
| Imsgbufs.Imsgbuf.Drain | compat/imsg-buffer.c:941-957 | the drain loop removes exactly n bytes; every descriptor held before is closed with its buffer or still held, and with descriptor passing none is closed |
| Imsgbufs.Imsgbuf.Gather | compat/imsg-buffer.c:686-713 | the buffers gathered for one sendmsg are all of the queue, IOV_MAX of them, or those before the next one with a descriptor; none but the first byte carries one |
| Imsgbufs.Imsgbuf.WriteFds | compat/imsg-buffer.c:686-753 | with descriptor passing, the kernel is offered exactly the buffers gathered; what it takes is passed with at most the descriptor of the message whose first byte is the first sent, and drained |
| Imsgbufs.Imsgbuf.WriteBytes | compat/imsg-buffer.c:653-684 | without it, the kernel is offered the whole queue up to IOV_MAX buffers, and what it takes is drained |
| Imsgbufs.Imsgbuf.Write | compat/imsg.c:80-87 | with or without descriptor passing, what is sent is what the kernel takes of the buffers gathered, and is drained |
| Imsgbufs.Imsgbuf.Create | compat/imsg.c:299-323 | a message begins with its header, with the own pid for pid 0, and is refused beyond the limit |
| Imsgbufs.Imsgbuf.CloseMsg | compat/imsg.c:336-346 | closing patches the length and the mark and queues header and payload, with the descriptor on the first byte |
| Imsgbufs.Imsgbuf.Compose | compat/imsg.c:189-205 | queues exactly the encoding of the message, or refuses what does not fit and queues nothing |
| ImsgWire.Link.Compose | compat/imsg.c:189-205 | composing at one of two connected imsgbufs, which both pass descriptors or both do not, is the compose step of the channel, and the other end is not touched |
| ImsgWire.Link.Write | compat/imsg-buffer.c:653-753 | in either setting, whatever the kernel takes of what is gathered moves from the queue to the wire, as the write step says |
| ImsgWire.Link.Read | compat/imsg-buffer.c:806-912 | a read at the other end, with a descriptor slot free or not, never fails and is the read step |
| ImsgWire.Link.Get | compat/imsg.c:112-133 | the message got is the one the channel hands over, with its descriptor |
| ImsgWire.LinkDelivers | compat/imsg-buffer.c:643-957 | in every state two imsgbuf objects over a socket pair can reach: what was got is a prefix of what was composed, and all of it once nothing is under way; without descriptor passing that is all, with it the descriptors are right, and none is missing, if and only if no read cut a marked header or left a descriptor behind |
| Timevals.MinusIsExact | ev.c:457-462 | timersub on normal times is subtraction of microseconds, and the expiry test is remaining time not above the elapsed one |
| Timevals.PollRoundsUp | ev.c:435-440 | the poll timeout is the remaining time rounded up to milliseconds |
| TimerHeap.SiftRepairs | ev.c:291-322 | bubbledown at the one place that may be out of order restores the heap below it |
| TimerHeap.SiftPermutes | ev.c:291-322 | it moves timers around and loses none |
| TimerHeap.RemovePermutes | ev.c:324-333 | cancel_timer takes out exactly one timer |
| TimerHeap.RemoveKeepsHeapIff | ev.c:324-333 | the heap survives a removal if and only if the last timer is not earlier than the parent of the removed one |
| TimerHeap.InteriorCancelHidesMinimum | ev.c:335-346 | a concrete heap in which a cancel leaves a root that is not the minimum |
| TimerHeap.RootIsMinimum | ev.c:437-440 | in a heap no timer is earlier than the root |
| TimerHeap.BuildMakesHeap | ev.c:397-406 | the loop of timerheapify makes a heap of any contents, with the same timers |
| TimerSweep.SweepExact | ev.c:456-476 | from any order, with callbacks that add timers: exactly the timers with remaining time up to T fire, once each, and every other one is reduced by T once |
| TimerSweep.SweepAdds | ev.c:456-476 | timers added during the sweep are appended to the reserve in order and not touched by it |
| TimerSweep.SweepIsPop | ev.c:456-476 | from a heap, every expiry of the sweep happens at index 0 |
| TimerSweep.PopInOrder | ev.c:456-476 | from a heap, timers fire in nondecreasing order of remaining time |
| TimerSweep.ReducedHeap | ev.c:474-475 | reducing every timer by the same time keeps the heap |
| TimerSweep.SweepOfHeap | ev.c:456-476 | a whole sweep of a heap leaves a heap and fires in order |
| TimerSweep.TimeoutCoversMinimum | ev.c:435-440 | from a heap, the poll timeout is at least the true minimum and less than a millisecond more |
| TimerTable.NextIdFresh | ev.c:245-249 | until the counter wraps, a new id is not in use |
| TimerTable.AddTable | ev.c:222-256 | adding a timer adds its entry to the table of pending timers and nothing else |
| TimerTable.PendingIsInTable | ev.c:258-289 | a timer is pending exactly when its id is in the table |
| TimerTable.CancelTable | ev.c:335-353 | cancelling removes exactly that entry, from the heap or the reserve |
| TimerTable.RebuildTable | ev.c:377-407 | moving the reserve into the heap changes no entry, and a non-empty reserve makes a heap |
| TimerTable.SweepTable | ev.c:456-476 | a sweep removes the expired entries and reduces the others |
| TimerRuns.StepRefinesTable | ev.c:422-491 | one whole tick on the table: expired entries fire once each and leave, the others are reduced, entries added by callbacks are there with their full time |
| TimerRuns.CancelGood | ev.c:335-353 | one cancel, also of id zero or an unknown id, takes out exactly the entry with that id and keeps ids distinct and bounded by the counter |
| TimerRuns.RunRefinesTable | ev.c:222-491 | over every run of adding, cancelling and ticks, until the counter wraps: the pending timers are what the same operations make of a plain map from id to timer, in which each due entry leaves and runs one callback, and ids stay distinct |
| TimerRuns.OrderHolds | ev.c:222-491 | over every run of adding, cancelling and ticks: once known, heap order lasts until a cancel that is unsafe, and the next rebuild brings it back |
| EventLoop.EvBase.EvTimer | ev.c:222-256 | the array grows by eight when it is full and only then; the timer goes to the end of the reserve with the next non-zero id |
| EventLoop.EvBase.FindTimer | ev.c:258-281 | the search over heap and reserve finds a timer exactly when it is pending, and where |
| EventLoop.EvBase.EvTimerPending | ev.c:283-289 | true exactly for pending timers |
| EventLoop.EvBase.BubbleDown | ev.c:291-322 | the swap loop does to the heap region what the recursive sift does, and nothing outside it |
| EventLoop.EvBase.CancelTimer | ev.c:324-333 | takes the timer out of the heap region; gap and reserve stay |
| EventLoop.EvBase.EvTimerCancel | ev.c:335-353 | cancels in the heap or the reserve, and reports an unknown id |
| EventLoop.EvBase.CloseGap | ev.c:386-395 | moving the reserve down over the gap loses no timer, overlapping or not |
| EventLoop.EvBase.TimerHeapify | ev.c:377-407 | heap and reserve become one heap and the indices say so; with an empty reserve the array and the indices stay as they were |
| EventLoop.EvBase.Heapify | ev.c:431-433 | before each tick heap and reserve become one heap, and an empty reserve starts right behind it |
| EventLoop.EvBase.Fire | ev.c:462-471 | the timer is removed before its callback runs |
| EventLoop.EvBase.SweepTimers | ev.c:456-476 | the loop over the array is the sweep, with a new array if callbacks make it grow |
| EventLoop.EvBase.Step | ev.c:422-476 | one tick: rebuild, the timeout of the root, the elapsed time for each outcome of poll, and the sweep |
| EventRuns.RunFiresDue | ev.c:222-491 | over every run of adding, cancelling and ticks, until the counter wraps, each tick fires exactly the entries that are due in the map those operations lead to, each once |
| EventRuns.Serve | ev.c:222-491 | any such run on the object: its array holds exactly the entries of that map, each tick has fired what was due in it, and unless an unsafe cancel has lost the order the timers in front are a heap |
| EventRuns.ServeFromStart | ev.c:222-491 | the same for a new event loop |
| Playlist.AdvanceFindsNextPlayable | amused.c:476-491 | advancing ends with the first song that opens after the position, wrapping through the whole list when repeat all is set, with exactly the songs that did not open on the way removed and the rest in order; if none opens it is stopped with position -1 |
| Playlist.AdvanceFindsIff | amused.c:476-491 | advancing finds a song if and only if one behind the position opens, or any one when repeat all is set |
| Playlist.PreviousLooksAtEveryOther | amused.c:493-508 | in both modes going back ends at the first song that opens among every other one before the position, if there is one |
| Playlist.PreviousFindsNearestIff | amused.c:493-508 | going back ends at the nearest song before the position that opens if and only if there is none or it is an odd number of songs away, in both modes, unless repeat all is set and nothing looked at before the position opens; then it does what a search from the end of what that leaves does |
| Playlist.PreviousFindsOdd | amused.c:493-508 | in both modes a nearest song that opens is found at every odd distance |
| Playlist.PreviousLooksBack | amused.c:493-508 | going back, as a search on the list alone, with list, position, song and state: each round looks at every other song and drops those, and with repeat all the next one starts from the end of what is left |
| Playlist.RoundLeavesIs | amused.c:493-508 | what a round leaves, seen at once: the songs up to the one found, those stepped over, and those behind |
| Playlist.PreviousFindsSomeIff | amused.c:493-508 | with repeat all it finds a song if and only if some song opens |
| Playlist.PreviousWrapsToNearestIff | amused.c:493-508 | with repeat all and nothing before the position that opens, it ends at the last song that opens if and only if that is at an odd distance from the end, given that one looked at opens; half of the songs before the position are gone |
| Playlist.PreviousSkips | amused.c:493-508 | a concrete queue in which going back skips a song that opens: it stops, or with repeat all comes back to the song it left |
| Shuffle.ShuffleKeepsCurrent | playlist.c:226-247 | for all draws the songs are permuted, the current song stays current, and without the flag the songs up to the position stay |
| Shuffle.ShuffleIsCyclic | playlist.c:243-246 | for all draws the shuffled slots exchange their songs in one single cycle, so with two or more of them none keeps its entry |
| Shuffle.SlotsCycle | playlist.c:243-246 | the slots shuffled so far form one cycle, each slot once |
| Shuffle.DrawsDecide | playlist.c:243-246 | different draws give different arrangements of different songs, so with uniform draws the arrangements that occur are equally likely |
| Daemon.HandleKeepsInv | control.c:136-464 | every event keeps: position in range, a current song unless stopped, distinct connections, no lock without an empty staged list, and a lock owner that is connected |
| MainEffects.EndOfTrack | amused.c:163-174 | at the end of a track: with repeat one a current song that opens starts again and nothing else changes; with repeat one or consume otherwise, exactly the song at the position goes and the first song behind it that opens starts; else the first song behind the position that opens, as seen by looking at the list once |
| MainEffects.TrackFailed | amused.c:149-162 | after an error exactly the song at the position goes, whatever the modes, and the first song behind it that opens starts; a report changes nothing of the queue |
| MainEffects.NextAndPrevious | control.c:372-381 | next and previous send a stop, go to the song that looking forwards or backwards over the list once finds, and start it exactly when there is one |
| MainEffects.PlayAndPause | control.c:315-362 | play, toggle, pause and stop in each of the three states: what is sent, that songs, position and current song stay, and that play from stopped starts the current song if it opens, else drops it and goes on |
| MainEffects.SeekLeads | amused.c:583-598 | a seek starts what play would start when stopped, goes on when paused, and always reaches the player |
| MainEffects.JumpLeads | amused.c:425-457 | a jump goes to the first song that matches and starts it, or drops exactly that song and goes on with an error when it does not open; without a match nothing changes |
| MainEffects.ModeLeads | control.c:385-394 | each of the three switches is left, turned over or set, and nothing else changes |
| MainEffects.FlushLeads | playlist.c:171-176 | a flush empties the list and leaves no position, while the current song and the state stay |
| MainEffects.AddLeads | amused.c:518-542 | outside a transaction a path goes to the end of the list; a malformed one is refused |
| MainEffects.StageLeads | control.c:404-454 | the owner of a transaction stages its paths behind each other while the list stays, and arguments of the wrong size change nothing |
| MainEffects.BeginLeads | control.c:395-403 | a transaction begins exactly when there is none, and is that of the connection that asked |
| MainEffects.CommitLeads | playlist.c:47-78 | a commit makes the staged songs the list, at the position asked for if it is in range, else at the first place of the current song, else at none; only when stopped the current song changes to the one there |
| MainEffects.ShuffleLeads | playlist.c:226-247 | a shuffle rearranges the songs and keeps the one at the position, which moves to the front when all are shuffled |
| MainEffects.ShowAndStatus | amused.c:544-581 | the listing is the songs in order with the one at the position marked, the status is the current song, the state and the modes, and neither changes anything |
| MainEffects.PreviousUndoesNext | control.c:372-381 | while everything opens, previous after next leads back to the same queue, also round the end of a repeated list |
| MainEffects.PlayAfterStop | control.c:315-319 | play after stop comes back to the song that was current |
| MainEffects.RepeatAllGoesRound | amused.c:163-174 | over every number of tracks that play to their end, repeating all, the position goes round the list song by song, the list stays, and each end has started one track |
| MainEffects.ConsumePlaysOnce | amused.c:163-174 | consuming, after n tracks exactly the n songs from the position on are gone and the next one plays |
| MainEffects.RepeatOneStays | amused.c:163-166 | repeating one song that opens, only PLAY after PLAY is sent |
| Transactions.StagedIsAddsSinceBegin | control.c:395-414 | over every run, while the lock is held the staged list is exactly what its owner validly added since its begin, in order; without a lock it is empty |
| Transactions.CommitReplacesAtomically | control.c:415-431 | a commit replaces the queue with exactly those songs, at the given position or that of the current song, keeps the play state and releases the lock |
| Transactions.OthersDoNotInterfere | control.c:404-454 | no message of another client or of the player touches the lock or the staged list |
| Transactions.LockedOut | control.c:395-454 | while another client holds the lock, begin, add, commit and shuffle are refused and change nothing |
| Transactions.ReusedDescriptorHasNoLock | control.c:210-239 | closing the owner discards the staged list, and a connection accepted on the same descriptor has no lock |
| SongList.SongList.Push | playlist.c:80-93 | appends the song; a full array grows by half, and to 16 at least |
| SongList.SongList.Remove | playlist.c:189-191 | the shifting loop removes exactly one song and keeps the order of the others |
| SongList.SongList.Find | playlist.c:55-63 | the first position of a song, or the length |
| SongList.SongList.FindMatch | playlist.c:202-208 | the first song that matches, or the length |
| SongList.SongList.ShuffleDown | playlist.c:243-246 | the in-place loop is the recursive shuffle |
| Deck.Deck.Advance | playlist.c:101-124 | moves to the next song, wraps with repeat all, else stops and forgets the current song |
| Deck.Deck.Previous | playlist.c:126-149 | the same backwards |
| Deck.Deck.DropCurrent | playlist.c:178-195 | removes the song at the position, forgets the current song and steps back; does nothing without a position |
| Deck.Deck.Truncate | playlist.c:171-176 | empties the list and resets the position; the current song stays |
| Deck.Deck.Swap | playlist.c:47-78 | takes over the array of the other list, at the wanted position, else at the current song, else nowhere |
| Deck.Deck.Jump | playlist.c:197-214 | the first song that matches becomes current, or nothing changes |
| Deck.Deck.ShuffleSongs | playlist.c:226-247 | moves the current song where it stays and shuffles the slots behind it |
| MainProcess.MainProcess.PlaySong | amused.c:397-423 | sends PLAY and sets the state for a path that opens, and does nothing otherwise |
| MainProcess.MainProcess.PlaylistAdvance | amused.c:476-491 | the retry loop with drops ends as the recursive search does, with one PLAY if a song was found |
| MainProcess.MainProcess.PlaylistPrevious | amused.c:493-508 | the same loop backwards |
| MainProcess.MainProcess.PlaylistResume | amused.c:460-474 | the current song first, then as advancing |
| MainProcess.MainProcess.PlaylistJump | amused.c:425-458 | errors for malformed arguments and no match; else STOP, and PLAY or a drop and the next song |
| MainProcess.MainProcess.Enqueue | amused.c:517-542 | a well-formed path goes to the staged list in a transaction, else to the queue; others are refused |
| MainProcess.MainProcess.SendPlaylist | amused.c:544-559 | every song in order, the one at the position marked, then the end |
| MainProcess.MainProcess.SendStatus | amused.c:561-581 | the current song, the state and the modes |
| MainProcess.MainProcess.SeekTo | amused.c:583-598 | starts playing when stopped, unpauses when paused, and always sends the seek |
| MainProcess.MainProcess.Transport | control.c:315-381 | play, toggle, pause, stop, next and previous in each state, with exactly the messages sent to the player |
| MainProcess.MainProcess.SetModes | control.c:385-394 | each switch is set, toggled or left as the request says |
| MainProcess.MainProcess.Commit | control.c:424-427 | the staged array becomes the queue, the staged list is empty again and the lock free |
| MainProcess.MainProcess.Editing | control.c:395-454 | begin, add, commit, shuffle and flush with their errors |
| MainProcess.MainProcess.Request | control.c:314-459 | every request changes main and replies as the value model does |
| MainProcess.MainProcess.DispatchImsg | control.c:274-464 | all requests that have arrived are handled in turn; a connection that hung up or whose read failed is closed before any request of that read |
| MainProcess.MainProcess.CloseConn | control.c:210-239 | removes the connection and aborts its transaction; an unknown descriptor changes nothing |
| MainProcess.MainProcess.AcceptConn | control.c:136-182 | a descriptor the kernel returns as new joins the connections |
| MainProcess.MainProcess.FromPlayer | amused.c:131-178 | at the end of a track repeat one, consume and the drop after an error, then the next song |
| MainRuns.HandleEvent | control.c:136-464 | every event on the object is the event of the value model |
| MainRuns.Serve | amused.c:131-178 | over every run of events the object, with its arrays, is what the value model says |
| MainRuns.ServeThenCommit | control.c:415-431 | after any run, a commit by the owner of the lock leaves the list of the object exactly what that connection added since its begin, the staged list empty and the lock free; a commit of anyone else changes nothing |
| Player.Player.Fetch | player.c:123-139 | reads until a message is there, or returns at once when it may not wait; it ends with the closed pipe only when nothing was left, and loses no message |
| Player.Player.Dispatch | player.c:110-175 | takes the oldest message exactly when one is there or it may wait for one; a PLAY sets the next track and reads as a stop; a second PLAY before the first was taken up is fatal, and so is one without its descriptor |
| Player.Player.Pause | player.c:237-244 | a held track goes on with resume or seek and stops with anything else |
| Player.Player.ShouldStop | player.c:246-259 | while a track sounds, stop, a new track and a pause that is not resumed end it, and the next track is the one just enqueued; a message that is there, or may be waited for, is always taken |
| Player.Player.Play | player.c:261-294 | it returns that there is more exactly when the whole chunk has gone to the device, else it has stopped within the chunk; a message has been taken for each poll that found one to read, and no more written than the device was ready for |
| Player.Player.PlayNext | player.c:196-235 | -1 exactly for a track that cannot be read or fails at its end, 0 exactly for one played to its end, 1 exactly for one stopped before; and exactly what was played has gone to the device |
| Player.Player.SendEnd | player.c:177-194 | the end of the sounding track is reported once |
| Player.Player.Run | player.c:345-356 | for every sequence of messages, every outcome of poll and every decoder that stops once play returns 0: the messages sent are exactly an error for each track that could not be read or failed and an end for each that came to its end, in order, and none for those main stopped; the device has been given exactly what was played of each; a track is never enqueued on top of another |
| Player.ReportsOfAll | player.c:351-355 | of tracks that main does not stop it hears of each in turn, of its end exactly when the decoder came to the end without failing |
| Player.SystemFollows | player.c:110-356 | in every interleaving of the player's acts with steps of main and clients, in which no message is taken before it was sent, the player of the system does the same and what main sent is what was taken and what is still in the channel |
| Player.SystemReports | player.c:177-194 | and it has reported the same ends of tracks, in order |
| Player.PlayerIsTheSystemsPlayer | player.c:110-356 | a player object in any state it can reach is the player of such a run: it does the same, has the same messages still to take, and the ends it has sent are those main has heard and those on their way |
| Player.MainAgreesWithPlayer | amused.c:131-178 | for a player object with nothing left to take, in a timely run with nothing left to hear: main's state is what the object is doing |
| PlayerLink.CommandsComeBack | amused.c:391-395 | the messages that main sends for a list of commands are heard by the player as those commands, with the PLAYs numbered in order |
| PlayerLink.PlayLostIff | player.c:144-149 | over a pair of imsgbufs that carries main's messages: some PLAY has come without its descriptor if and only if a read cut the header of one or left its descriptor behind, and the messages are main's commands as numbered |
| PlayerLink.PlayerMeetsLoss | player.c:144-149 | a player object that takes those messages ends with the error about the descriptor only if a read lost one, and if one did it never gets through all of them |
| System.ClientAgrees | control.c:314-454 | whatever a client asks for, a player in main's old state ends in main's new state |
| System.EndPlaysIff | amused.c:131-178 | told of the end of a track, main starts another one if and only if repeat one applies to a current song that opens, or advancing finds a song after the drop; otherwise it stops and sends nothing |
| System.NextKeeps | amused.c:131-178 | every step of clients, main and player keeps the invariant that what the player will do with the messages under way is main's state, unless the end of the latest track is under way |
| System.AgreeFrom | amused.c:131-178 | from any state that keeps the invariant, main and player agree in every timely run |
| System.MainAndPlayerAgree | amused.c:131-178 | in every interleaving in which each end main handles is about the latest track, or finds something else to play: whenever both channels are empty, main's state is the player's |
| System.StaleEndShowsIff | amused.c:147-173 | after any other end, however the rest under way is taken in while nothing opens: once both channels are empty, main's state is the player's if and only if main was stopped already or the end of the latest track was under way |
| System.StaleEndBreaksAgreementIff | amused.c:147-173 | after such an end the two agree in every timely run if main was stopped already or the end of the latest track is under way, and there is a run that shows them apart if not |
| System.StaleEndExample | amused.c:163-173 | a run after which main is stopped and the player plays |
| CanonPath.Canonpath | ctl.c:114-159 | succeeds exactly when the path fits, and then writes the "/"-joined result of resolving its components on a stack, terminated, reading and writing inside the buffers only |
| CanonLaws.RelativeIsUnderCwd | ctl.c:122-129 | a path without a slash in front is resolved on the stack of the names of the working directory, and refused exactly when the two are too long together or something does not fit on the way |
| CanonLaws.RelativeIsAbsolute | ctl.c:122-129 | that is what the same path behind the working directory gives as an absolute one, from anywhere |
| CanonLaws.OneMoreComponent | ctl.c:131-158 | one more component at the end of an absolute path: an empty one or a dot changes nothing, two dots take the result up to before its last slash, any other is put behind a slash if it fits |
| CanonLaws.FirstComponent | ctl.c:131-158 | the same for the first component, so that every absolute path is covered |
| CanonPath.Walk | ctl.c:131-158 | the one loop over the path, character by character, does that |
| CanonPath.ScanBack | ctl.c:143-145 | the scan backwards stops inside the buffer, at the slash of the last component |
| CanonPath.Lookahead | ctl.c:134-149 | the tests of up to three characters recognise exactly the components "", "." and ".." |
| CanonPath.ResultIsCanonical | ctl.c:114-159 | no result has an empty component, "." or "..", and every one fits |
| CanonPath.CanonicalIsKept | ctl.c:114-159 | a canonical path other than the empty one is its own result |
| CanonPath.IdempotentIff | ctl.c:114-159 | a second pass gives the same result if and only if that is not empty or the working directory is the root |
| CanonPath.RootIsEmpty | ctl.c:134-135 | the root directory comes out as the empty string |
| CanonPath.EmptyIsCwd | ctl.c:122-129 | the empty path is the working directory, if that fits |
| CanonPath.ShortInputSucceeds | ctl.c:152-158 | a path shorter than the buffer is never refused |
| LoadShow.Show | ctl.c:574-591 | the lines printed for the replies, with the marks of -p or without, up to the one that ends the list |
| LoadShow.LoadFiles | ctl.c:197-238 | the loop over lines adds and counts as the line-by-line function does; a mark sets the position even when the path is refused |
| LoadShow.UnmarkedLine | ctl.c:209-230 | a line without a mark adds the path that canonpath gives for it, if it gives one, and leaves the position as it was |
| LoadShow.MarkedLine | ctl.c:209-230 | a line marked as playing sets the position to its place among the paths added, even when its path is refused; one with two spaces does not |
| LoadShow.ListLoads | ctl.c:197-238 | a plain list of files adds exactly the accepted paths, in order, and marks no position |
| LoadShow.LastLineIsCut | ctl.c:207-208 | a last line without its newline loses its last character |
| LoadShow.PlainRestoredIff | ctl.c:197-238 | for names without newlines, shown with marks or without, the songs come back if and only if every one is its own canonical form, and then the position that was marked too |
| LoadShow.KeptIff | ctl.c:210-230 | a name is its own canonical form exactly when it is canonical and fits, and not empty outside the root directory |
| LoadShow.NewlineNotRestored | ctl.c:197-238 | a queue with a newline in a name never comes back |
| LoadShow.LoadRestoresIff | ctl.c:197-238 | for every queue, with marks or without: loading what show prints gives the same songs if and only if every one is canonical, without newlines, fits, and is not empty unless load runs in the root directory; and then the position if it was marked, else none |
| LoadShow.RootIsNotRestored | ctl.c:210-230 | a concrete queue: the empty path is restored as the working directory |
| LoadShow.StagedSince | control.c:395-414 | from a begin on, whatever others do, the staged list is what its owner added |
| LoadShow.ShowLoadIdentity | amused.c:544-559 | over every run of the daemon: show, with marks or without, loaded by a client restores the songs if and only if they are of that kind, and then the position if it was marked, else that of the current song |
| Sha1.Workspace.Blk0 | compat/sha1.c:27-32 | the first sixteen words are those of the block, in either byte order of the machine |
| Sha1.Workspace.Blk | compat/sha1.c:33-34 | the word written into the circular block is that of the eighty-word schedule |
| Sha1.Workspace.R0 | compat/sha1.c:39 | a round of the first kind is one of the standard |
| Sha1.Workspace.R1 | compat/sha1.c:40 | the same with the schedule |
| Sha1.Workspace.R2 | compat/sha1.c:41 | a round of the second kind |
| Sha1.Workspace.R3 | compat/sha1.c:42 | a round of the third kind |
| Sha1.Workspace.R4 | compat/sha1.c:43 | a round of the fourth kind |
| Sha1.GetSlots | compat/sha1.c:33-34 | the indices of the code are three, eight, fourteen and sixteen rounds back |
| Sha1.Eighty | compat/sha1.c:62-89 | the eighty rounds on five variables that change places are those of section 6.1.2 of FIPS 180-4 |
| Sha1.Transform | compat/sha1.c:53-100 | one block is compressed as the standard says |
| Sha1Context.CountPosition | compat/sha1.c:128-129 | the bit count wraps but never loses the position in the block |
| Sha1Context.Context.constructor | compat/sha1.c:106-117 | the initial hash value and the empty message |
| Sha1Context.Context.HashWhole | compat/sha1.c:130-134 | fills up the buffer and hashes all whole blocks |
| Sha1Context.Context.Update | compat/sha1.c:123-140 | appends to the message, however it is cut |
| Sha1Context.Context.Pad | compat/sha1.c:146-160 | the padding loop ends and makes the padding of section 5.1.1 of FIPS 180-4 |
| Sha1Context.Context.Final | compat/sha1.c:162-173 | the digest is that of the standard for the whole message, and the context is wiped |
| Sha1Context.HashPieces | compat/sha1.c:123-173 | for every list of pieces the digest is that of their concatenation |
| Sha1Example.DigestOfAbc | compat/sha1.c:53-171 | the definitions used as the standard give the published digest of the message abc, through all eighty rounds |
| Base64.B64Encode | web/ws.c:61-113 | the loop writes the encoding and its terminator, and refuses exactly when they do not fit |
| Base64.DecodeEncode | web/ws.c:61-113 | every encoding decodes to its input by section 4 of RFC 4648 |
| Base64.EncodeLength | web/ws.c:72-103 | four letters for every three bytes begun |
| Base64.AcceptHeader | web/ws.c:115-127 | the header decodes to the SHA-1 of key and identifier, and 29 bytes are needed for it |
| BufIo.Buf.Append | web/bufio.c:68-78 | grows chunk by chunk until the data fits and no further, and appends it |
| BufIo.Buf.Drain | web/bufio.c:102-114 | drops exactly the first bytes, moving the others down in place |
| BufIo.Bufio.Append | web/bufio.c:399-415 | appends to what is written, growing in the same way |
| BufIo.Bufio.Compose | web/bufio.c:417-438 | writes the data, in chunked mode as one chunk, and refuses only a size line of sixteen characters |
| BufIo.Bufio.Write | web/bufio.c:354-386 | what the kernel takes leaves the buffer; the stream as a whole does not change |
| Chunked.HexIsValue | web/bufio.c:423-425 | the size line is the length in hexadecimal |
| Chunked.ComposeLimit | web/bufio.c:423-426 | a chunk is refused exactly from 16^13 bytes on |
| Chunked.DechunkChunks | web/bufio.c:417-438 | non-empty chunks and the last one decode by section 7.1 of RFC 9112 to the concatenation of the pieces, with nothing left over |
| Chunked.NoEarlyEnd | web/http.c:298-299 | before the last chunk nothing ends the coding |
| Http.Client.Flush | web/http.c:292-309 | what is staged becomes one chunk; nothing staged writes nothing, so no empty chunk appears |
| Http.Client.Write | web/http.c:311-351 | the copy-and-flush loop adds exactly the data to the body, staged or in whole non-empty chunks; without chunks the data is written as it is |
| Http.Client.Close | web/http.c:441-451 | what is staged is flushed and one empty chunk ends the body; without chunks nothing is written |
| Http.Reply | web/http.c:292-451 | for every list of writes with partial sends in between: what was sent and what still waits is the header and a coding that decodes to exactly the body |
| WebSocket.ComposedIsRead | web/ws.c:199-240 | every payload up to 0x7FFF bytes is recovered by a parser of section 5.2 of RFC 6455, final, unmasked and with the shortest length form |
| WebSocket.Compose | web/ws.c:199-240 | writes the frame, or refuses a longer payload and writes nothing |
| WebSocket.ReadFrame | web/ws.c:129-197 | which frames are read, awaited, refused as unmasked or as too long; whenever none is read the buffer is as before |
| WebSocket.Unmask | web/ws.c:192-194 | the payload is decoded in place, the bytes behind it stay |
| WebSocket.LittleUnmasks | web/ws.c:192-194 | on a little-endian machine that is the unmasking of section 5.3 of RFC 6455 for every key |
| WebSocket.BigUnmasksIff | web/ws.c:189-194 | on a big-endian machine it is if and only if the key reads the same both ways as far as the payload reaches |
| WsSession.ClientFrameIsRead | web/ws.c:129-197 | the frames considered are masked frames of RFC 6455 |
| WsSession.ReadInOrder | web/ws.c:129-197 | for every fragmentation and every interleaving of reading, the payloads read are a prefix of those sent and no byte is lost |
| WsSession.AllFramesRead | web/ws.c:129-197 | at any time the payloads read are those of the first frames sent, and with everything arrived and the buffer empty of all of them |
| WsSession.NextIsRead | web/ws.c:183-196 | with everything arrived, reading a buffer that is not empty always yields the next frame |
| WsSession.ReadAtMostHandles | web/web.c:994-995 | each call of the route reads one frame at most |
| WsSession.FramesWait | web/web.c:949-1018 | for the frames of a client in any reads, with one call of the route after each: no more frames are read than there were reads, and the others are in the buffer, whole and in order |
| WsSession.SecondStays | web/web.c:949-1018 | two frames in one read: the first is read, the second stays in the buffer |
| WsSession.Connection.HandleFrame | web/web.c:832-864 | one frame is read and drained, unmasked in the byte order of the machine; a ping is answered with its payload, a close or a refused frame ends the connection, an incomplete one changes nothing |
| WsSession.AnswerByOpcode | web/web.c:847-857 | by the opcode on the wire: a ping is answered with a pong of its payload, a close ends the connection, the others are read and not answered |
| WsSession.RefusedEnds | web/ws.c:160-171 | a frame without a mask or with an extended length ends the connection, drains nothing and is not answered |
| WsSession.Connection.Serve | web/web.c:949-1018 | the connection object over any sequence of reads and routed events reads what the value model does, nothing after the last frame, and has written exactly the answers |
| WsSession.ServeClient | web/web.c:949-1018 | for the frames of a client in any fragments, on a little-endian machine: what the object reads is a prefix of what was sent, all of it once everything has arrived and the buffer is empty, and every ping read is answered in order |

## Left out

- MainProcess.MainProcess.SendStatus: carries no position, duration or audio parameters, which come from the decoders.
- MainProcess.MainProcess.AcceptConn: a failed accept is only a descriptor below zero; pausing the listener when descriptors run out is not part of the model.
- EventLoop.EvBase.Step: covers timers; the descriptor half of the tick, and the width of the millisecond count, are not modelled.
- EventLoop.EvBase.SweepTimers: callbacks add timers and may stop the loop; callbacks that cancel timers during the sweep are not modelled.
- EventLoop.EvBase.EvTimer: the missing timeval and failing allocation are not modelled.
- TimerSweep.SweepExact: is about sweeps that no callback stops; a stopped one is modelled, but leaves timers unvisited by design.
- Player.Player.Dispatch: the halted flag and the value of a seek are not modelled.
- Player.Player.Run: a termination signal is not modelled; the polls and the messages of one run are finite, and a run ends where they end.
- System.MainAndPlayerAgree: the hypothesis admits stale ends that find something else to play, and excludes the others, which `System.StaleEndBreaksAgreementIff` treats.
- Imsgbufs.Imsgbuf.WriteFds: the kernel accepts at least one byte of a non-empty write, as a stream socket does.
- ImsgWire.Link.Compose: without descriptor passing only messages without a descriptor are composed, as everywhere in the program; one composed with it would keep its mark and lose it.
- Imsgbufs.Imsgbuf.Compose: the sum of the payload length and the header size does not wrap around.
- LoadShow.ShowLoadIdentity: load adds and commits over one connection; the replies it waits for meanwhile, and what it does when the connection fails, are not followed.
- Base64.AcceptHeader: the identifier is a parameter.
- WsSession.Connection.Serve: covers the read buffer and the answers; when the kernel takes the answers is `BufIo.Bufio.Write`, and freeing the client once it is done is not modelled.
- imsg_composev, imsg_compose_ibuf and imsg_forward: they build the same messages from other arguments; only non-empty buffers are queued.
- control_notify and the monitor events: a copy of what happened for listeners, which changes nothing else.
- The effect of a seek on the position, and relative and percent seeking, which use floating point.
- Audio back ends, the decoders and the song metadata parsers: a decoder is only what it passes to play and how it ends.
- strcasestr, open and fstat: predicates on paths and songs.
- Sockets, fork and exec, pledge, the lock file, logging, option parsing and status printing.
- http_parse, http_reply, URL and HTML escaping, routing and TLS of the web front end.
- Allocation failure everywhere.
