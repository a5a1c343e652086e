# Remy: a verified model

Remy gives access to the files of several machines: each machine runs a client, all clients are connected to one server,
and the server pairs clients and relays bytes between them. This project models the parts in which several programs or
coroutines must agree, and proves that they do.

* **Framing.** `Wire` and `Serde` are the encoders and decoders of `serde.hpp` over one recursive type of values;
  `Sockets` has the loops that send and receive on a socket; `Messages` the message grammars of the control and browser
  connections; `SendsChannel` the discipline that many producers queue actions and one coroutine runs them; `WireFormat`
  which byte is what in each of them.
* **Copying.** A tree of files (`Tree`, `Paths`) is listed and written by `CopySender`, forwarded by `CopyRelay` (what
  the server forwards) and `CopyProgress` (the coroutine with its progress reports), and rebuilt by `CopyReceiver` in a
  `FileSystem` with links, in which path strings are looked up as the system does.
  `CopyPipeline`, `BrokenCopy` and `EndToEnd` put the three programs together: what a copy achieves, and what it has
  done when a connection breaks at any byte.
* **Rendezvous.** `Rendezvous` is a state machine of any number of concurrent handshakes, with the invitations and
  connections that are on their way; `Registry` the ids and the registry of connected clients; `Proxy` the handoff of a
  socket to the relay in both directions.
* **Client state.** `BrowserPanel` is navigation, listing and selection in a browser panel; `PrettySize` how sizes are
  shown.

What is a chain of effects on an object in the program is a class with methods here (`Sender`, `Receiver`,
`CopyOperation`, `Socket`, `Server`, `SocketsChannels`, `Browser`), each proved against functions on values; the theorems
are about these functions. A socket is the sequence of bytes still to be read and the sequence of bytes written; how
reads are split, when a write breaks, and what the clock says is arbitrary; of a socket that lasts, every write succeeds,
so that what a method does when nothing breaks is stated as well. Coroutines that run concurrently are state machines over
their steps. Statements about runs hold for every interleaving; beside them, results on what can still happen show a run
that gets on from every state.

## What the code does less than one might expect

Each of these is proved, as an exact condition or with the place where it shows.

* The sender's loop reads whole blocks of 1 MiB until the announced size is reached (src/client.cpp:494-499). It sends
  exactly that many bytes of a longer file only if the size is a multiple of the block; otherwise it sends too much. It
  ends if and only if the file has at least that size: on a file that has become shorter it goes on for ever.
* A base that consists of slashes only becomes the empty base, which is the current directory (src/client.cpp:512-517).
* A selected link to a directory is announced as a link, but the contents of the directory are listed below it, as
  `is_directory` follows links (src/client.cpp:525). The list is as expected if and only if there is nothing to list.
* A received file whose path cannot be opened is read and lost without an error: the stream is told to throw on `badbit`
  only, and opening sets `failbit` (src/client.cpp:556-567).
* A received path is looked up through links and dots (src/client.cpp:553-572). A file is written at the place its names
  spell if and only if there are no dots in the path and no link above or at the place; otherwise it is written where
  they lead.
* Completion is shown when the server has written everything to the socket of the destination (src/server.cpp:462-465);
  that the destination has it follows only if it also arrives.
* An optional whose flag is neither 0 nor 1 is accepted, but written again with 1 (include/remy/serde.hpp:138-148).
* A handshake that is abandoned after it has made its channel never removes it (src/server.cpp:326-348): its token stays
  in use as long as the server runs.
* The comparator of the listing holds for an entry and itself, or two entries of one name and kind
  (src/view-client.cpp:648-658): it is a strict order exactly on distinct names.
* For sizes of 1024 T and above the unit is not in the table of names (include/remy/utils.hpp:15-21).

## Model

| member | source | states |
|---|---|---|
| Serde.RoundTrip | include/remy/serde.hpp:77-208 | for every value of every type and every trailing bytes, receiving what was sent gives the value and leaves exactly the trailing bytes |
| Serde.RoundTripAll | include/remy/serde.hpp:111-132 | the same for the elements of a vector |
| Serde.PrefixFree | include/remy/serde.hpp:77-208 | of one type, no encoding is a proper prefix of another, and encodings are distinct |
| Serde.DecodeExtends | include/remy/serde.hpp:77-208 | a value that was read stays the same when more bytes follow |
| Serde.CutValueIsNotRead | include/remy/serde.hpp:77-208 | a value cut anywhere is not read at all |
| Serde.ParseThenPrint | include/remy/serde.hpp:77-208 | a received value is well typed and is sent again in as many bytes; they are the bytes that were read if and only if every flag of an optional was 0 or 1 |
| Serde.ParseThenPrintAll | include/remy/serde.hpp:120-132 | the same for the elements of a vector |
| Serde.FlagFreeIsOk | src/server.cpp:357-362 | values of types without optionals, as relayed by `msg_proxy`, are always printed back byte for byte |
| WireFormat.ByteOfNumber | include/remy/serde.hpp:77-81 | byte `i` of a number is its digit of weight 256^i: the least significant byte comes first |
| WireFormat.ValuesOnWire | include/remy/serde.hpp:77-142 | the layout of every kind of value: length before characters or elements, components in order, flag before value |
| WireFormat.MetainfoLayout | include/remy/common.hpp:98-106 | for a block made of its fields, the size is read from the first eight bytes, and the type of file from the high bits of the mode behind the ids |
| WireFormat.ServerMessagesOnWire | src/server.cpp:201-246 | the bytes of the messages with a client's id, its name, and the two invitations to a browser connection, with the client's own token before the server's |
| WireFormat.CopyInvitationsOnWire | src/server.cpp:247-271 | the bytes of the invitations to a copy: token, role, path, and for the source the names |
| WireFormat.ClientsListOnWire | src/server.cpp:218-226 | the bytes of the list of clients: how many, and id and name of each in order |
| WireFormat.ClientMessagesOnWire | src/client.cpp:175-207 | the bytes of a client's requests: in a copy the source's id, directory and names come before the destination's id and directory |
| WireFormat.ReaderMessagesOnWire | src/client.cpp:320-337 | the bytes of a reader's requests |
| WireFormat.HostMessagesOnWire | src/client.cpp:389-441 | the bytes of a host's answers: directory, whether there is a listing, how many entries, and name and metadata of each |
| WireFormat.ReportOnWire | include/remy/serde.hpp:185-196 | the bytes of a report, field by field |
| Sockets.Send | include/remy/serde.hpp:77-196 | what reaches the socket is a prefix of the encoding, all of it exactly on success, and it succeeds if the connection lasts |
| Sockets.Recv | include/remy/serde.hpp:83-209 | the imperative readers with their loops compute the decoder, from whatever the socket holds |
| Messages.BodyRoundTrip | src/client.cpp:92-153 | payload and role-dependent extra part of every message of every connection are read as they were sent |
| Messages.MessageRoundTrip | src/client.cpp:259-293 | the reading loop gets a message at the front of the stream and goes on exactly behind it |
| Messages.CutMessageIsNotRead | src/client.cpp:359-448 | a message cut short yields nothing |
| Messages.MessagesThenCut | src/server.cpp:148-198 | whole messages and a piece of one more are read as exactly the whole ones |
| Messages.MessagesRoundTrip | src/server.cpp:148-198 | a sequence of messages is read as that sequence |
| Messages.ReceiveMessages | src/client.cpp:92-153 | the reading loop, which skips unknown message types, computes the specified sequence for every stream |
| Messages.ReceiveBody | src/client.cpp:92-153 | reads payload and extra part of one message as the decoder does, or fails where it does |
| Messages.SendMessage | src/server.cpp:218-271 | an action writes a prefix of its message's encoding, all of it exactly on success, and it succeeds if the connection lasts |
| Messages.BrowserReaderRequest | src/server.cpp:236-246 | the reader's invitation is a well-formed message of the control connection |
| Messages.CopySourceRequest | src/server.cpp:247-259 | the source's invitation, with path and names after the role, is well formed |
| Messages.CopyDestinationRequest | src/server.cpp:261-271 | the destination's invitation, with the path only, is well formed |
| Messages.BrowserHostRequest | src/server.cpp:227-235 | the host's invitation is a well-formed message of the control connection |
| Messages.GetDentsMessage | src/client.cpp:320-325 | the request for a listing is well formed |
| Messages.ClientsListMessage | src/server.cpp:218-226 | a list of clients is a well-formed message of the control connection |
| Messages.SetNameMessage | src/client.cpp:180-185 | the request for a new name is well formed |
| Messages.ConnectBrowserMessage | src/client.cpp:186-199 | the request for a browser connection is well formed |
| Messages.CopyMessage | src/client.cpp:200-207 | the request for a copy, with the names at the source and the directory at the destination, is well formed |
| Messages.DeleteMessage | src/client.cpp:326-331 | the request to delete entries is well formed |
| Messages.MkdirMessage | src/client.cpp:332-337 | the request to make a directory is well formed |
| Messages.PathDentsMessage | src/client.cpp:389-394 | a listing, or the answer that there is none, is well formed |
| Messages.ResultMessage | src/client.cpp:420-441 | the answers to the requests to delete and to make a directory are well formed |
| SendsChannel.FrameAtomicity | include/remy/common.hpp:118-127 | for every interleaving of producers and writer, the wire is the preamble, the opening messages, whole encodings of the first messages that producers queued, in the order of their events, and a piece of the current one |
| SendsChannel.StepKeepsInv | src/server.cpp:199-216 | after every step, what is written and what the current action has still to write are whole encodings of the first messages queued, and the queue holds the others in order |
| SendsChannel.RunKeepsInv | src/server.cpp:199-216 | the same after every run, for the messages of its events in order |
| SendsChannel.PeerReadsPrefix | src/client.cpp:294-306 | at any moment the peer has read the opening messages and the ones queued in the run, first in first out, up to the last one that was finished |
| SendsChannel.EverythingCanArrive | src/server.cpp:209-215 | from every point of every run the writer can get on until the peer has read every message queued so far, in order, and every producer can queue another one |
| SendsChannel.CutMessagesRead | src/client.cpp:449-458 | a stream of messages cut anywhere is read as the first few of them |
| SendsChannel.ControlSocketOpens | src/server.cpp:199-216 | a client is told its id, then its name, before anything that was queued |
| SendsChannel.ClientSocketOpens | src/client.cpp:154-166 | after the byte for the type of connection, the server reads the request for the list of clients before anything that was queued |
| SendsChannel.ReaderSocketOpens | src/client.cpp:294-306 | after type and token, the host reads the request for its current directory before anything else, on a queue without capacity |
| SendsChannel.OutcomingMessages | src/server.cpp:199-216 | the writing loop sends opening messages and actions in order, all of them if the connection lasts, and otherwise a prefix of their encoding |
| Paths.ComponentsOfAppend | src/client.cpp:553 | appending a relative path names its components below those of the base |
| Paths.ComponentsOfJoin | src/client.cpp:485-486 | the transmitted path string has the listed names as its components |
| Paths.StripThenAppend | src/client.cpp:485-486 | dropping the base length from a listed path gives the path relative to the root, and appending that to the base gives the listed path again |
| Paths.StripSlashesResult | src/client.cpp:512-517 | the stripped base does not end in a slash and is what was given without slashes at the end |
| Paths.StrippedBaseMeansTheSame | src/client.cpp:512-517 | the stripped base leads through the same names from the same directory if and only if the base was not made of slashes only |
| Tree.FlattenIsSupportedPreOrder | src/client.cpp:529-536 | filtering the recursive iteration gives the pre-order list of files, directories and links |
| Tree.FlattenListsEachNodeOnce | src/client.cpp:529-536 | the list of one directory has each supported node below it exactly once, with its path, and nothing else |
| Tree.FlattenListsParentsFirst | src/client.cpp:529-536 | in the list of one directory every node comes after its parent directory |
| Tree.ListsEachNodeOnce | src/client.cpp:509-539 | the sender's whole list has each selected root once, whatever it is, each supported node below a selected directory once, and nothing else |
| Tree.ListsParentsFirst | src/client.cpp:509-539 | in the sender's whole list every root is in the base and every other node comes after its parent directory |
| Tree.CollectsExactly | src/client.cpp:521-537 | collecting fails exactly if a name is missing; the list is the roots and what is below selected directories if and only if no selected link leads to a directory with something to list |
| Tree.FindSelected | src/client.cpp:521-524 | the selected subtrees have at each selected name what the source directory has, and nothing at other names |
| CopySender.SendsAnnouncedSizeIff | src/client.cpp:494-499 | of a file at least as long as announced, exactly the announced bytes are sent if and only if the length is the announced one or the announced one is a multiple of the block |
| CopySender.LoopEndsIff | src/client.cpp:494-499 | the block loop ends, and after how many rounds, if and only if the file has at least the announced size |
| CopySender.ReadsOn | src/client.cpp:494-499 | the number of bytes sent in all is the progress of that loop, round by round, when it ends |
| CopySender.SentContentIs | src/client.cpp:494-499 | what is sent of a file is its first so many whole blocks, as many as it takes to reach the announced size, or all there is |
| CopySender.SendContent | src/client.cpp:494-499 | for a file of any length, the block loop sends what the specification says, all of it if the connection lasts, and gets past the file exactly if all was sent and the file is long enough |
| CopySender.Sender.CollectMetadata | src/client.cpp:509-539 | strips the base, and lists exactly the specified items with their paths below the base; fails exactly if a name is missing |
| CopySender.Sender.CollectRoot | src/client.cpp:521-537 | appends one root and everything below it |
| CopySender.Sender.CollectBelow | src/client.cpp:529-536 | the filtering loop appends the items of the pre-order list |
| CopySender.Sender.SumSizes | src/client.cpp:472-478 | the total is the sum of the sizes of regular files, modulo 2^64 |
| CopySender.Sender.SendBody | src/client.cpp:489-503 | what the type of a file adds is sent, and all of it if the connection lasts |
| CopySender.Sender.SendFile | src/client.cpp:481-504 | one file is sent as metadata, relative path and what its type adds; if the connection lasts the sender gets past it exactly if it is long enough |
| CopySender.Sender.SendFiles | src/client.cpp:481-504 | the listed files are sent in order, up to the first that has become too short; all of that if the connection lasts |
| CopySender.Sender.Process | src/client.cpp:468-506 | the whole stream of a copy, or a prefix of it if the socket breaks, up to a file that has become too short, and nothing if a name is missing; it is all sent if the connection lasts |
| FileSystem.WalkEnds | src/client.cpp:553-572 | wherever links and dots in a path lead, the place has no dots, its directory exists, and there is no link at it if links are followed |
| FileSystem.LeadsToItselfIff | src/client.cpp:553-572 | names lead to the place they spell if and only if there are no dots among them, its parent is a directory, and there is no link at it that would be followed |
| FileSystem.OpensOwnPlaceIff | src/client.cpp:553-558 | a file is opened at the place its path spells if and only if the path is plain, the parent is a directory, and there is nothing or a regular file at the place |
| FileSystem.DirectoryAtOwnPlace | src/client.cpp:571-573 | a directory is created where there is nothing, an existing one and a link to one are accepted, and anything else is in the way |
| FileSystem.LinkAtOwnPlaceIff | src/client.cpp:568-570 | a link is created, with the received target, if and only if there is nothing at its place and the target is not empty |
| FileSystem.FollowsLink | src/client.cpp:553-572 | what comes after a link to a directory is looked up in that directory, which is looked up from where the link is or from the root, unless too many links were met |
| FileSystem.FollowsDots | src/client.cpp:553-572 | a dot in a path leads nowhere and two dots lead back |
| FileSystem.AbsolutePlace | src/client.cpp:553 | an absolute received path takes no notice of the base |
| FileSystem.WalkIsKept | src/client.cpp:553-572 | what leads to a directory goes on leading there when something is added anywhere |
| CopyReceiver.FileArrives | src/client.cpp:555-567 | a received regular file is consumed whole; if its path cannot be opened nothing changes, otherwise its content is at the place the path leads to, and nowhere else has changed |
| CopyReceiver.BodyChangesOnePlace | src/client.cpp:555-573 | receiving a file changes at most the place its path leads to, through any links and dots, which is new in an existing directory or was a regular file |
| CopyReceiver.ReceiveKeepsTree | src/client.cpp:542-577 | for every stream, of any sender and cut anywhere, with any links and dots, the destination stays a tree in which every object is in a directory, and nothing is removed |
| CopyReceiver.Receiver.Process | src/client.cpp:542-577 | the receiving loop computes the specified destination and leaves the specified rest of the stream |
| CopyReceiver.Receiver.ReceiveFile | src/client.cpp:549-573 | the same for one file of any type, including every failure |
| CopyReceiver.Receiver.CreateOne | src/client.cpp:555-573 | what the type of a file asks for, with the path looked up as the system does |
| CopyReceiver.Receiver.WriteContent | src/client.cpp:560-567 | the loop of exact reads writes the content block by block, or loses it if the file is not open; of a stream that ends it has written the whole blocks |
| CopyRelay.RelayFilesIsIdentity | src/server.cpp:429-464 | for every stream, whole or cut at any byte, the relayed files are a prefix of what was received, and with the rest they are all of it |
| CopyRelay.RelayIsIdentity | src/server.cpp:422-464 | the same for the whole copy: the relay never adds, drops or reorders a byte |
| CopyRelay.RelayHoldsBackLittle | src/server.cpp:422-464 | when the copy stops, what was received and not forwarded is the beginning of one unfinished piece, and of the content of a file nothing is held back |
| CopyRelay.CompleteIffAllFiles | src/server.cpp:429-464 | the copy completes exactly if every announced file was forwarded |
| CopyProgress.ReportsTellProgress | src/server.cpp:412-464 | every report tells the completed files and, of the bytes, the completed regular files plus the progress of the current one; progress never goes back |
| CopyProgress.ProgressIsBounded | src/server.cpp:438-465 | with an announced total that is the sum of the sizes, total progress never exceeds it and reaches it with completion |
| CopyProgress.FailureIsFinal | src/server.cpp:466-474 | a copy that fails has never been shown as complete |
| CopyProgress.GoodReportsComplete | src/view-client.cpp:740-756 | once completion was shown, no later report shows anything else |
| CopyProgress.ReportMessage | src/server.cpp:273-281 | a report is a well-formed message of the control connection |
| CopyProgress.CopyOperation.ProgressSend | src/server.cpp:411-421 | a report is sent exactly if it is forced or the last one is more than 250 ms ago, and the time is then kept |
| CopyProgress.CopyOperation.ContentProxy | src/server.cpp:438-454 | the loop of partial reads forwards exactly the content, whatever the reads, everything that arrives if the destination's connection lasts, and counts it |
| CopyProgress.CopyOperation.HeaderProxy | src/server.cpp:430-431 | metadata and path are forwarded unchanged and known afterwards |
| CopyProgress.CopyOperation.BodyProxy | src/server.cpp:438-460 | what the type of a file adds is forwarded; after a regular file, a link or a directory the current progress is the current size |
| CopyProgress.CopyOperation.FileProxy | src/server.cpp:429-464 | one round of the loop forwards one file, keeps the reports true, and counts the file exactly if it was forwarded |
| CopyProgress.CopyOperation.FilesProxy | src/server.cpp:427-464 | the loop forwards the announced files and has counted all of them exactly if it succeeds |
| CopyProgress.CopyOperation.ProcessCopy | src/server.cpp:401-475 | for every clock, chunk schedule and failure point: the stream is forwarded as specified, all of it if the connection lasts; the first report comes as soon as the two numbers were forwarded and tells them; and the reports end in completion exactly if everything was forwarded, and in failure otherwise |
| CopyPipeline.InstallGives | src/client.cpp:548-575 | creating the nodes of a forest in pre-order gives, at every path, the image of the source below the copied names and what was there before elsewhere |
| CopyPipeline.RecordsArePlain | src/client.cpp:485-486 | the transmitted paths are the names below the base, joined, for any base and any number of slashes after it |
| CopyPipeline.PlacesOfNewEntry | src/client.cpp:553-572 | in a directory the base leads to, the path string of a new entry leads to the entry's own place, whatever links and dots there are in the base |
| CopyPipeline.ItemIsReceived | src/client.cpp:549-573 | the bytes of one listed file make the receiver create that file and are consumed exactly, with any bytes behind them |
| CopyPipeline.ForestIsReceived | src/client.cpp:548-575 | the bytes of a forest make the receiver create it inside existing directories only, and are consumed exactly |
| BrokenCopy.ItemIsCut | src/client.cpp:549-573 | a file cut anywhere is not finished by the receiver, which has written exactly the whole blocks of a regular file that have arrived, and nothing else |
| BrokenCopy.ListIsCut | src/client.cpp:548-575 | wherever the list is cut, only paths at or below the selected names have changed, only the whole list is read to the end, and the destination is what the items that have arrived make of it |
| BrokenCopy.WholeIs | src/client.cpp:548-575 | a cut lies in the item after those that are counted as whole |
| BrokenCopy.AfterCutGives | src/client.cpp:548-575 | then each item that has arrived whole is there, of the next one what has arrived in whole blocks, nothing of the others, and every other path is as before |
| BrokenCopy.ListedUnderNames | src/client.cpp:521-537 | every listed path begins with a selected name |
| EndToEnd.ItemsAreRelayed | src/server.cpp:429-464 | at every file boundary the server's position in the stream is the sender's |
| EndToEnd.TransmissionIsRelayed | src/server.cpp:422-464 | the server forwards a transmission completely and unchanged, and takes nothing of what follows |
| EndToEnd.CutTransmissionIsRelayed | src/server.cpp:422-464 | of a transmission cut at any byte the server knows the first few files only, and it completes the whole one only |
| EndToEnd.TotalIsSum | src/client.cpp:472-478 | the announced total is the sum of the regular sizes in the relayed headers, modulo 2^64 |
| EndToEnd.TransmissionIsReceived | src/client.cpp:542-577 | for every source tree and distinct names, and a base that leads, through whatever links, to a directory with none of them in it, the destination becomes the old one plus the selected subtrees restricted to files, directories and links; the stream is consumed exactly and no step fails |
| EndToEnd.BrokenTransmission | src/client.cpp:542-577 | a transmission cut at any byte leaves a tree: items that arrived whole are as wanted, of the one that was cut there are the whole blocks that arrived, everything else is as before; the receiver finishes only with all of it |
| EndToEnd.CompletionTellsAll | src/server.cpp:462-465 | the report that shows completion tells the whole size |
| EndToEnd.SendAndRelay | src/server.cpp:401-475 | for every splitting and break of both connections: completion is shown if and only if everything was forwarded, which implies that everything was sent, and which is so if nothing breaks; no report tells more progress than the total size, and completion tells all of it |
| EndToEnd.Copy | src/client.cpp:468-577 | if no connection breaks, everything is sent, forwarded and received; completion and arrival imply that the receiver finishes; if it finishes, the destination is as wanted; wherever anything breaks, the destination is exactly what has arrived makes of it |
| Rendezvous.StepKeepsInv | src/server.cpp:307-398 | every step of every handshake, invitation and connection keeps the invariant that ties tokens, channels and sockets to handshakes, and in which whoever waits has invited |
| Rendezvous.RolesAreRight | src/server.cpp:331-342 | in every reachable state the first socket of a handshake is the host's or source's for it, the second the reader's or destination's, even if both are one client, and no two handshakes share a socket |
| Rendezvous.WaitsForItsInvitation | src/server.cpp:329-337 | a handshake that waits has invited the right client with its own kind and token, and the invitation or its connection is on its way or was lost |
| Rendezvous.CanBePaired | src/server.cpp:326-342 | from every reachable state, some run pairs a handshake that was not given up and lost nothing, with one socket each of its first and its second client |
| Rendezvous.CanBeOpened | src/server.cpp:326-342 | a new handshake whose token is free is opened, and some run pairs it |
| Rendezvous.LosingIsFinal | src/server.cpp:76-86 | a connection that is lost never reaches a handshake |
| Rendezvous.TokenOutlivesInvitation | src/server.cpp:326-340 | an undelivered invitation or connection has its token pending, for its own handshake only, so it never misses its channel |
| Rendezvous.RemovedChannelIsIdle | src/server.cpp:340 | when a channel is removed nothing is on its way to it, so a token drawn again never mixes two handshakes |
| Rendezvous.CopyTokensAreUnique | src/server.cpp:378-397 | no two copies that got a channel have one token, in the lifetime of the server |
| Rendezvous.PairedBrowserFreesToken | src/server.cpp:340 | after pairing, the token can be used again and the other tokens are untouched |
| Rendezvous.AbandoningKeepsToken | src/server.cpp:345-352 | when a handshake is abandoned, its token is refused in every later state of every run |
| Rendezvous.SocketsChannels.New | src/server.cpp:477-485 | performs the step of a new handshake and keeps the invariant; it throws exactly if a handshake of that kind whose channel is still there has the token |
| Rendezvous.SocketsChannels.Get | src/server.cpp:486-490 | performs the step of an arriving connection and keeps the invariant; the lookup never throws, and finds the channel of the handshake that has sent the token |
| Rendezvous.SocketsChannels.Delete | src/server.cpp:491-495 | performs the last step of a handshake and keeps the invariant; every connection on its way still finds its own channel |
| Registry.FirstFreeIsUnique | src/server.cpp:95-101 | there is one first free id in cyclic order from the cursor |
| Registry.ProbesAreBounded | src/server.cpp:95-101 | an id is found after at most as many probes as there are clients, plus one, if any id is free |
| Registry.Server.AllocateId | src/server.cpp:95-101 | the wrapping loop ends with the first free id in cyclic order from the cursor |
| Registry.Server.Register | src/server.cpp:90-104 | a new client gets a free id, under which exactly it is registered; others are untouched |
| Registry.Server.Unregister | src/server.cpp:112-115 | removes the entry under the client's id and keeps the others |
| Registry.Server.GetClientsDescs | src/server.cpp:119-127 | the list has every registered client exactly once, with its name |
| Registry.StepKeepsOwned | src/server.cpp:90-117 | every entry is keyed by its client's id and owned by exactly one connection, after every connect and disconnect |
| Registry.StepRegisters | src/server.cpp:90-117 | a client that connects is live and registered under a free id, one that disconnects is neither, and all others stay as they are |
| Registry.RunKeepsOwned | src/server.cpp:90-117 | the same after every run |
| Registry.DisconnectRemovesOwnEntry | src/server.cpp:112-115 | erasing by id removes the leaving client's entry and no other |
| Proxy.ProxyOneWay | src/server.cpp:290-297 | the loop of partial reads forwards what arrives, all of it if the connection lasts and otherwise a prefix |
| Proxy.ReceiveHeader | src/server.cpp:64-83 | connection type and token are read as the client sent them, and not a byte more |
| Proxy.SendHeader | src/client.cpp:247-252 | the client writes connection type and token, all of it if the connection lasts |
| Proxy.StepKeepsInv | src/server.cpp:289-303 | every step of either direction keeps what was delivered, what is held and what is still to be read in order |
| Proxy.RelayIsFaithful | src/server.cpp:289-303 | for every schedule and stopping point, each peer got a prefix of what the other sent after its connection type and token |
| Proxy.EverythingCanArrive | src/server.cpp:289-303 | from every point of every run at which nothing has failed, everything that either client has sent after its header can arrive at the other one |
| Proxy.StoppingIsFinal | src/server.cpp:298-302 | when one direction fails, nothing more arrives at either client |
| BrowserPanel.ParentUndoesDescent | src/view-client.cpp:149-168 | going up undoes going into a directory |
| BrowserPanel.NavigationIsAStack | src/view-client.cpp:149-168 | after any moves, failed ones included, the working directory is the joined stack of names gone into and not left, and empty exactly at the top |
| BrowserPanel.BeforeIsInOrder | src/view-client.cpp:648-658 | the comparator holds exactly if no directory would come after something else, and names of like entries go up bytewise |
| BrowserPanel.BeforeIsStrictOnDistinctNames | src/view-client.cpp:648-658 | the comparator is total and transitive, and holds in both directions exactly for entries of one name that are both directories or both not |
| BrowserPanel.SortOrders | src/view-client.cpp:648-658 | the sorted listing is an ordered permutation of the listing |
| BrowserPanel.SortedIsInOrder | src/view-client.cpp:648-658 | in the sorted listing directories come first, and names go up among directories and among everything else |
| BrowserPanel.OrderIsUnique | src/view-client.cpp:648-658 | with distinct names there is only one such permutation |
| BrowserPanel.FlaggedIsSublist | src/view-client.cpp:666-674 | the selected names are those at the flagged positions, in order and each once |
| BrowserPanel.PositionsOfAllFlags | src/view-client.cpp:670-674 | no flagged entry is left out |
| BrowserPanel.SelectionIsDistinct | src/view-client.cpp:666-687 | a selection from a listing with distinct names has distinct names of the listing |
| BrowserPanel.Browser.ShowDents | src/view-client.cpp:624-664 | a listing replaces directory, cursor and the three vectors: all of its entries and no others, directories first, names going up, aligned, with nothing selected; a failed one changes nothing |
| BrowserPanel.Browser.OnEnter | src/view-client.cpp:149-168 | what entering an entry requests, which is the move of the navigation model |
| BrowserPanel.Browser.Toggle | src/view-client.cpp:170-176 | flips one flag, never that of slot 0, moves the cursor within range and keeps the vectors aligned |
| BrowserPanel.Browser.CollectSelected | src/view-client.cpp:666-687 | the result is a selection from the listing without slot 0; the flagged entries, or without any the current one, or all on slot 0; it is empty exactly in an empty directory |
| PrettySize.OneUnitUp | include/remy/utils.hpp:15-19 | one round of the loop keeps the bounds on the size |
| PrettySize.Split | include/remy/utils.hpp:10-22 | below 1024 T the unit has a name, the number is below 1024, and number and remainder bound the size from both sides in the largest unit that fits; the unit has a name if and only if the size is below 1024 T |

## Left out

- Boost.Asio, threads, signals, the resolver and the acceptor, program options and the logger.
- Rendering, modals, keys other than the Space toggle and Enter, and the mouse; the menu is taken to keep its cursor on an entry.
- Attributes of copied files: `apply_attrs` follows links with `chmod` and sets the attributes of a directory before its contents are written, so neither mode nor times are claimed. Metadata is 56 bytes of which only size and type have a meaning.
- Listing on Android, where metadata is read through links (src/client.cpp:597-616).
- A file system that changes during a copy, unreadable files, permissions, and a full disk. A source is a fixed tree; its files have the announced lengths where a theorem says so (`Stable`).
- Source and destination of one copy are two file systems; a copy into the copied tree is not part of this model.
- Locate: limits on the length of names and paths, and files other than regular ones, directories and links at the destination; hard links and mounts as well.
- SendContent: returns without success where the loop of the source goes on for ever, which is where nothing is written any more.
- FlattenRoots: the recursive directory iterator is the pre-order of the tree, in the order the tree is given in.
- Find: a selected name that is not an entry of the base directory, such as a path of several names, counts as missing.
- Recv: reserving memory for a huge announced length may fail, which is a failure of the connection in any case; only the end of the stream is modelled as one.
- SortDents: an insertion sort takes the place of `std::sort`. With distinct names any correct sort gives its result (`OrderIsUnique`).
- AllocateId: asks for a free id, as the loop does not end without one.
- ProcessCopy: whether the handshake succeeded is a parameter, and the watching client is taken to be there throughout.
- Speed and estimated time: the speed is an arbitrary number here; its computation divides by zero in the first millisecond (src/server.cpp:448-452).
- Liveness beyond what can happen: whether queues have room, deadlock (`SetName` queues on the queue of its own consumer, src/server.cpp:169-176), timeouts of a handshake, answers to requests. A request to connect to a client that has left is never answered, as `m_clients.at` is outside the `try` (src/server.cpp:315-319).
- `clients_list_notify_all` iterates over the registry without its lock and across suspensions (src/server.cpp:128-135); only the locked snapshot is modelled.
- A client that connects more than once with a token, or with a token it was not given: `RolesAreRight` and the other results on handshakes assume one connection for each invitation.
- The client's table of panels and browser tokens, which leads an answer to the panel that asked (src/client.cpp:186-237).
- Texts of delete and mkdir results, `trim_end` and `pretty_duration`, and the formatting of the number in `pretty_size` as a float.
