# A verified model of TryWebServer

TryWebServer is an epoll web server: one main thread accepts connections, keeps their deadlines in a
heap and hands work to a pool of threads; the workers parse HTTP requests, assemble responses and
send them with scattered writes; a log, a database connection pool and a small JSON reader serve the
rest.  This project restates that logic in Dafny and proves what it promises.  Code that changes
state is modelled as classes and loops over the same fields, each method proved against a functional
specification; threads and the event loop are step systems in which every handler or critical
section is one step, for any number of threads and any interleaving.  `dafny verify dfyconfig.toml`
checks everything.

| file | component | main results |
|---|---|---|
| TimerHeap.dfy | code/timer | the indexed heap refines a map from id to deadline; Adjust keeps it exactly when the new deadline is not before the parent's; a tick releases exactly what is due |
| ByteBuffer.dfy | code/buffer | any run of calls on the growable buffer, however the kernel answers, is a run of a first-in first-out byte queue, in a storage whose layout is known exactly |
| HttpRequest.dfy | code/http/http_request | parsing undoes printing; what a posted form leads to; form decoding undoes joining; the regular expressions as splits, proved to be their matches |
| HttpResponse.dfy | code/http/http_response | a receiver gets exactly the body, the announced length is its length, and the other headers say what they should |
| HttpConn.dfy | code/http/http_conn, handlers of code/server | conservation over partial writes; completeness in edge-triggered mode; exactly when level-triggered mode gives up |
| ConnectionLife.dfy | the same, over a connection's whole life | a receiver gets exactly the bodies of complete answers, each to what the one before left unread and what arrived since |
| JsonText.dfy, JsonLanguage.dfy, JsonClosing.dfy, JsonRoundTrip.dfy, JsonParser.dfy | code/config/json_util.h | the accepted language as a grammar; exactly the completable texts are accepted past their end; exactly the readable values survive generation |
| ServerProtocol.dfy, WebServer.dfy | code/server/web_server | safety over all runs; no connection in use times out; exactly when a run gives a connection two owners; the handlers over the real heap are steps of the protocol |
| Counting.dfy, ThreadPool.dfy, AsyncLog.dfy, SqlPool.dfy | code/pool, code/log | no lost wake-up, exactly-once execution, no deadlock, semaphore agreement, one holder |
| Machine.dfy, Text.dfy | shared | machine arithmetic, text search, decimal numbers |

## What the proofs found

Where a promise does not hold of the code as it stands, the exact condition under which it does is
proved, or a concrete run that breaks it is given; the names say where.  A point without a name is
read off the modelled code.

- `Timer::Adjust` only sifts down, so the heap stays a heap exactly when the new deadline is not
  earlier than the parent's (`TimerHeap.Timer.Adjust`).  The server's one constant timeout and a
  clock that never goes back make that so (`WebServers.WebServer.ExtentTime`).
- `GetNextTick` clamps a negative value of an unsigned variable, which never happens.  The sleep time
  is negative exactly when the deadline passes a full millisecond before the second clock reading,
  and is -1, "block for ever", exactly in the millisecond after that (`TimerHeap.Timer.GetNextTick`);
  with one deadline and two readings that happens (`TimerHeap.OverdueSleepsForGood`).
- A descriptor can have two owners, such as an armed interest and an old task.  That happens exactly
  in the runs that accept it again while an event or a task of its former connection is outstanding
  (`ServerProtocol.ServerIsOwnedIff`), as after a timer that fires on a busy connection
  (`ServerProtocol.TimerCanBreakExclusion`).  The stricter rule, that a registered descriptor has one
  owner and no other has any, fails exactly at such a timer (`ServerProtocol.RunIsExclusiveIff`).
- `HttpConn::Init` and `process` leave the second segment's length alone.  A length left over from a
  connection closed in mid-file survives until an answer with a file replaces it, and an answer
  without one is then the connection's last: `ToWriteBytes()` counts the leftover in, so the total
  never shows zero (`HttpConns.HttpConn.OnWrite`), and a request to be kept alive is not honoured
  although the whole answer was sent (`ConnectionLives.LeftoverEndsKeepAlive`).
- In level-triggered mode `OnWrite` closes with up to 10240 bytes unsent and no error, exactly when
  the first write that leaves at most that many leaves any (`HttpConns.GivesUpIff`); a kernel that
  takes all but one byte shows it (`ConnectionLives.LevelTriggeredCutsShort`).
- `OnRead` closes exactly on end of file or an error other than EAGAIN, whatever arrived before
  (`HttpConns.HttpConn.OnRead`): a peer that sends a whole request and ends its side gets no answer
  (`ConnectionLives.EndOfFileDropsRequest`).
- A request body that holds CRLF is cut at it; a body without a CRLF stays in the buffer unless the
  method is POST (`HttpRequests.BodyRecoveredIff`).
- A rejected request is looked up as the resource directory itself.  It is answered with 400 exactly
  where that name would be served as a file; where it is a directory the answer is 404
  (`HttpConns.AnswerIsDecided`).
- The mapping's error test reads the first four bytes of the file: a file that can be served is sent
  exactly when those are not all 0xFF (`HttpResponses.FileIsSentIff`).
- JSON: a negative number, or a quote in a string or key, does not come back
  (`JsonRoundTrip.RoundTripIff`); an empty container is rejected unless its brackets touch
  (`JsonRoundTrip.EmptyContainerIff`); separators may be left out, or follow the last element
  (`JsonLanguage.LanguageIff`); a text that ends too early is accepted exactly when closing
  brackets, behind a closing quote if it ends in an opening one, would complete it
  (`JsonClosing.PastEndIff`, `JsonClosing.OpeningCharactersAreAccepted`).
- A closed pool has started every task in the end exactly when none was added after the last worker
  had left (`ThreadPools.NothingLostIff`): such a task stays queued for good
  (`ThreadPools.StrandedForGood`), and there is a run with one (`ThreadPools.LateTaskNeverRuns`).
- A log line written past a full queue overtakes the queued lines: the file stays in writing order
  exactly in the runs without such a write past a different line (`AsyncLog.RunInOrderIff`), and
  whatever the capacity there is a run with one (`AsyncLog.LineOvertakes`).  The capacity is always
  the default one: log.cpp:44 does not pass on the configured size.
- Every database connection stays in one place exactly in the runs that return only what is held
  (`SqlPools.RunKeepsPool`); a second return leaves one connection in the pool twice
  (`SqlPools.SecondReturnDuplicates`).  `UserVerify` returns twice: http_request.cpp:140 builds an
  unnamed guard that frees at once, and line 186 frees again.

Where documentation and code differ the code is followed: http_conn.cpp:73 says "transfer finished",
but that branch cannot be taken, since a positive result needs something to send.

## Model

| member | source | states |
|---|---|---|
| TimerHeap.RootIsLeast | code/timer/timer.cpp:92-105 | heap order puts a least deadline at the root, for every slot of every heap |
| TimerHeap.SwapKeepsContents | code/timer/timer.cpp:28-34 | a swap with its two index writes keeps the index the exact inverse and loses, duplicates and alters no node |
| TimerHeap.UpdateIsLoose | code/timer/timer.cpp:45-49 | changing one deadline leaves a heap that can be wrong only around that slot |
| TimerHeap.DelIsLoose | code/timer/timer.cpp:70-79 | parking the victim at the tail leaves a prefix wrong only at the vacated slot |
| TimerHeap.SwapUpKeepsShape | code/timer/timer.cpp:3-11 | one step up moves the only wrong edge to the parent |
| TimerHeap.SinkStep | code/timer/timer.cpp:18-24 | one step down, with equal deadlines swapping, moves the wrong slot to the least child |
| TimerHeap.TickReleasesExactlyTheDue | code/timer/timer.cpp:92-105 | with a clock that never goes back, an id is released if and only if it had less than one millisecond left at the last reading |
| TimerHeap.SleepSign | code/timer/timer.cpp:117-125 | for a deadline not due at the last reading, the sleep time in nanoseconds of the two readings: the whole milliseconds left, its sign, and when it is -1 |
| TimerHeap.Timer.SwapNode | code/timer/timer.cpp:28-34 | exact index kept; same nodes in another order |
| TimerHeap.Timer.ShiftUp | code/timer/timer.cpp:3-11 | repairs a prefix wrong above one slot; permutes the prefix only, the slots behind it stay |
| TimerHeap.Timer.ShiftDown | code/timer/timer.cpp:13-26 | returns true exactly when some child is not strictly later, and then the prefix is a heap; false changes nothing |
| TimerHeap.Timer.Add | code/timer/timer.cpp:36-54 | inserts or overwrites exactly one id; heap order and exact index kept |
| TimerHeap.Timer.Del | code/timer/timer.cpp:67-83 | removes exactly the id at that slot; heap order and exact index kept |
| TimerHeap.Timer.DelWork | code/timer/timer.cpp:56-65 | fires exactly the callback of a known id and forgets it; an unknown id changes nothing |
| TimerHeap.Timer.Adjust | code/timer/timer.cpp:85-90 | changes one deadline; the heap is valid afterwards if and only if the new deadline is not before the parent's |
| TimerHeap.Timer.Tick | code/timer/timer.cpp:92-105 | terminates; distinct nodes in non-decreasing deadline order, each due at its own reading; nothing left is due or earlier |
| TimerHeap.Timer.Pop | code/timer/timer.cpp:107-110 | removes exactly the root's id |
| TimerHeap.Timer.GetNextTick | code/timer/timer.cpp:117-125 | the whole milliseconds left to a least deadline over all ids at one further reading, for less than 2^31 of them; -1 when none is left; negative, and -1 with deadlines left, exactly when that reading is one or more, or one to two, milliseconds past the deadline |
| TimerHeap.OverdueSleepsForGood | code/timer/timer.cpp:117-125 | a timer with one deadline at 10 ms, asked by a clock that reads 0 and then 11 ms, fires nothing, keeps the deadline and answers -1, as one outcome of GetNextTick's contract |
| TimerHeap.Timer.Clear | code/timer/timer.cpp:112-115 | forgets every id |
| ByteBuffer.Replay | code/buffer/buffer.cpp:20-135 | over any calls on a buffer, bytes that came out followed by bytes left are the former content followed by the bytes that went in; every read is offered exactly the room the storage's layout leaves |
| ByteBuffer.PerformCall | code/buffer/buffer.cpp:20-114 | each call is one queue operation: what it hands out, and the content and layout it leaves |
| ByteBuffer.OneMoreCall | code/buffer/buffer.cpp:20-114 | one more call at the end of a run steps from the content and layout the run left |
| ByteBuffer.OneMoreOp | code/buffer/buffer.cpp:20-114 | one more operation at the end of a run adds what it takes to the outflow and leaves what it leaves |
| ByteBuffer.Buffer.Retrieve | code/buffer/buffer.cpp:20-23 | drops exactly the oldest bytes |
| ByteBuffer.Buffer.RetrieveAll | code/buffer/buffer.cpp:30-34 | empties the queue and zeroes the storage |
| ByteBuffer.Buffer.RetrieveAllToStr | code/buffer/buffer.cpp:36-40 | returns every unread byte in order and empties the queue |
| ByteBuffer.Buffer.AdjustSpace | code/buffer/buffer.cpp:124-135 | keeps the unread bytes and makes the room; moves in place exactly when the free space suffices, and only with a positive read position; else grows |
| ByteBuffer.Buffer.Append | code/buffer/buffer.cpp:63-68 | puts the bytes behind the unread ones |
| ByteBuffer.Buffer.ReadFd | code/buffer/buffer.cpp:81-103 | delivered bytes are queued in order across the free space and the spill area; an error changes nothing |
| ByteBuffer.Buffer.WriteFd | code/buffer/buffer.cpp:105-114 | the bytes written followed by those left are the former content |
| HttpRequests.SplitRequestLineIsTheMatch | code/http/http_request.cpp:75-87 | the split succeeds with exactly the groups of the request line expression |
| HttpRequests.SplitHeaderIsTheMatch | code/http/http_request.cpp:89-97 | the split succeeds with exactly the groups of the header expression, the optional space taken when there |
| HttpRequests.SearchPairIsLeftmost | code/http/http_request.cpp:124-134 | the search returns a match at the leftmost place that has one, and fails only when no place has |
| HttpRequests.ShortestGroupsMatch | code/http/http_request.cpp:124-134 | if any groups match at a place, the shortest ones do |
| HttpRequests.DecodeUndoesJoin | code/http/http_request.cpp:124-134 | decoding a joined list of pairs gives the map in which the last pair of a key wins |
| HttpRequests.HeadersAreRead | code/http/http_request.cpp:42-47 | every clean header line is consumed and recorded, the last of a repeated name winning |
| HttpRequests.HeadIsRead | code/http/http_request.cpp:25-48 | request line and headers of any printed request are recovered before the blank line |
| HttpRequests.ParseUndoesPrint | code/http/http_request.cpp:25-122 | every printed request is accepted, parsing finishes, every part is recovered, and what stays in the buffer is known |
| HttpRequests.BodyRecoveredIff | code/http/http_request.cpp:48-60 | the body survives if and only if it has no CRLF; the buffer is then emptied if and only if there was no body or the method is POST |
| HttpRequests.OnlyTheRequestLineFails | code/http/http_request.cpp:25-63 | parsing fails if and only if there is no input or the request line does not match |
| HttpRequests.RejectedIsUntouched | code/http/http_request.cpp:36-39 | a rejected request sets no field and consumes nothing |
| HttpRequests.PathIsCompleted | code/http/http_request.cpp:65-73 | the page a path stands for, by name |
| HttpRequests.KeptAliveIff | code/http/http_request.cpp:18-23 | a printed request asks to stay if and only if its last Connection header is keep-alive and the version is 1.1, whatever its body |
| HttpRequests.LastHeaderWins | code/http/http_request.cpp:89-97 | a header has the value of the last line with its name |
| HttpRequests.OtherLineEndsTheHead | code/http/http_request.cpp:89-97 | any line without a colon ends the head |
| HttpRequests.FormDecides | code/http/http_request.cpp:106-122 | for any form posted in a printed request: the login and registration pages lead to the welcome page if and only if the last name and password given are not empty and the database agrees, and else to the error page; no other path changes; the form holds the fields given |
| HttpRequests.OnlyAFormIsDecoded | code/http/http_request.cpp:106-122 | without a form in a POST body the path is only completed and nothing is decoded |
| HttpRequests.HttpRequest.ParseRequestLine | code/http/http_request.cpp:75-87 | succeeds exactly on a match and stores its groups |
| HttpRequests.HttpRequest.ParseFromUrlEncoded | code/http/http_request.cpp:124-134 | the repeated search computes the decoded form and always makes progress |
| HttpRequests.HttpRequest.ParsePost | code/http/http_request.cpp:106-122 | the fields after a body are those of the specification that `FormDecides` and `OnlyAFormIsDecoded` state the meaning of |
| HttpRequests.HttpRequest.Parse | code/http/http_request.cpp:25-63 | result, parser fields and unread bytes are those of the line-by-line specification |
| HttpResponses.HeadLinesArePlain | code/http/http_response.cpp:91-111 | no line before the length line is empty, holds CR or LF, or announces a length |
| HttpResponses.LengthLineAnnounces | code/http/http_response.cpp:131-131 | a receiver reads back the number that was printed |
| HttpResponses.ResponseIsFramed | code/http/http_response.cpp:61-170 | for every file system, path, code and continuation, a receiver that stops at the first empty line is left with exactly the body and what follows, with the body's length announced |
| HttpResponses.HeadStaysReceived | code/http/http_response.cpp:61-111 | a head that was received is received the same whatever is sent behind it |
| HttpResponses.StatusIsShown | code/http/http_response.cpp:61-100 | the response starts with a known code's status line if and only if that is the resolved code |
| HttpResponses.StatusLinesAre | code/http/http_response.cpp:91-100 | the four status lines, character by character |
| HttpResponses.HeadIsUnderstood | code/http/http_response.cpp:102-132 | a client that splits the header lines reads exactly: the connection, with the limits if it stays, one type, and the length of the body |
| HttpResponses.SuffixIsTheLast | code/http/http_response.cpp:141-147 | a path has a suffix if and only if it has a dot; the suffix is its end that begins with a dot and holds no other |
| HttpResponses.TypeBehind | code/http/http_response.cpp:141-152 | a file's type is that of its suffix, whatever dots the stem holds |
| HttpResponses.PageTypes | code/http/http_response.cpp:4-6 | the type sent for a path that ends in .html, .xml and .xhtml, whatever precedes it |
| HttpResponses.TextTypes | code/http/http_response.cpp:7-8 | the type sent for a path that ends in .txt and .rtf, whatever precedes it |
| HttpResponses.DocumentTypes | code/http/http_response.cpp:9-10 | the type sent for a path that ends in .pdf and .word, whatever precedes it |
| HttpResponses.ImageTypes | code/http/http_response.cpp:11-12 | the type sent for a path that ends in .png and .gif, whatever precedes it |
| HttpResponses.PhotoTypes | code/http/http_response.cpp:13-14 | the type sent for a path that ends in .jpg and .jpeg, whatever precedes it |
| HttpResponses.MediaTypes | code/http/http_response.cpp:15-16 | the type sent for a path that ends in .au and .mpeg, whatever precedes it |
| HttpResponses.FilmTypes | code/http/http_response.cpp:17-18 | the type sent for a path that ends in .mpg and .avi, whatever precedes it |
| HttpResponses.ArchiveTypes | code/http/http_response.cpp:19-20 | the type sent for a path that ends in .gz and .tar, whatever precedes it |
| HttpResponses.ScriptTypes | code/http/http_response.cpp:21-22 | the type sent for a path that ends in .css and .js, whatever precedes it, with the blank the table has |
| HttpResponses.UnlistedType | code/http/http_response.cpp:147-151 | any other suffix is plain text |
| HttpResponses.ErrorBodyIs | code/http/http_response.cpp:154-170 | the built-in error page, character by character |
| HttpResponses.ShownFileIs | code/http/http_response.cpp:61-89 | the file asked for, or the page of what is wrong with it |
| HttpResponses.FileIsSentIff | code/http/http_response.cpp:123-131 | a file that can be served and opened is the body if and only if its first four bytes are not all 255 |
| HttpResponses.ResponseFits | code/http/http_response.cpp:61-170 | the buffered part stays below 1024 bytes and a file leaves that room below 2^31, for every manageable file system |
| HttpResponses.HttpResponse.AddContent | code/http/http_response.cpp:113-132 | announces the mapped file's length, or appends an error page with its own length |
| HttpResponses.HttpResponse.ChooseFile | code/http/http_response.cpp:61-89 | the code, page and size that stat's answer decides |
| HttpResponses.HttpResponse.MakeResponse | code/http/http_response.cpp:61-74 | appends the head that `HeadIsUnderstood` and `ResponseIsFramed` are about, and the body unless it is a file left for the second segment |
| HttpConns.AnswerIsDecided | code/http/http_conn.cpp:90-101 | 200 if and only if the request is accepted and its file may be sent; 400 if and only if it is rejected and the resource path itself may be sent; 404 if and only if the name looked up is missing or a directory; 403 if and only if others may not read it |
| HttpConns.AnswerIsUnderstood | code/http/http_conn.cpp:90-115 | what a client learns from the answer to any text, whatever follows it: which file it is shown or why not, whether the connection stays, the type and the length; the body is that file, or the error page exactly when it cannot be sent |
| HttpConns.GivesUpIff | code/http/http_conn.cpp:67-87 | a level-triggered write loop ends with bytes unsent and no error if and only if the first call that leaves at most 10240 bytes leaves any |
| HttpConns.LevelTriggeredEnd | code/http/http_conn.cpp:67-87 | the loop ends at the first call that fails or leaves at most 10240 bytes |
| HttpConns.AnswerIsReceived | code/http/http_conn.cpp:90-115 | from the answer to any text, whatever follows it, a receiver gets exactly the body |
| HttpConns.HttpConn.Init | code/http/http_conn.cpp:17-26 | the descriptor is taken over, the connection is open and counted, both buffers are empty; the slot is idle if and only if no second length is left over |
| HttpConns.HttpConn.Close | code/http/http_conn.cpp:28-36 | the file is unmapped; an open connection is closed and counted off, a closed one is not counted again |
| HttpConns.HttpConn.Advance | code/http/http_conn.cpp:74-85 | the pending bytes lose exactly the accepted prefix, across both segments, and the write buffer stays the first segment |
| HttpConns.HttpConn.Write | code/http/http_conn.cpp:65-88 | terminates for every kernel with exactly the specified outcome; sent and pending bytes make up the staged response throughout |
| HttpConns.HttpConn.Read | code/http/http_conn.cpp:54-63 | everything delivered is in the read buffer, in order, and recorded as received; in edge-triggered mode reading goes on until nothing is left |
| HttpConns.HttpConn.Process | code/http/http_conn.cpp:90-115 | with nothing to read only the request is reset; otherwise the answer to exactly the unread text is staged behind what was buffered, what the parser leaves stays unread, and only a file replaces the second length |
| HttpConns.HttpConn.OnProcess | code/server/web_server.cpp:165-171 | arms for output exactly when there was something to read, with the answer to exactly that text staged and what the parser leaves unread, whatever second length is left over |
| HttpConns.HttpConn.OnRead | code/server/web_server.cpp:153-163 | closes exactly on end of file or an error other than EAGAIN, whatever arrived before; otherwise answers everything that is there, on any slot, and leaves what the parser leaves |
| HttpConns.HttpConn.OnWrite | code/server/web_server.cpp:173-192 | the total shown is the unsent bytes plus a length left over; on EAGAIN at the last call it re-arms with the unsent rest and the request intact; a zero total ends in a close, unless the request asks to stay, and else in the answer to what is unread; edge-triggered, only an error leaves anything unsent, on any slot; level-triggered, exactly when it gives up |
| ConnectionLives.Serve | code/server/web_server.cpp:153-192 | over any sequence of turns on any slot that Init has made ready: all bytes sent are complete answers and the beginning of one more, and a receiver gets exactly their bodies; each answers what the one before left unread and what arrived since, and every byte received is answered, still unread, or came too late; edge-triggered and unless a write fails, a close leaves no answer begun and incomplete; if also the peer stays, the connection is closed if and only if the last answer was to a request that does not ask to stay, or was the slot's first, without a file, over a length left over |
| ConnectionLives.OneMoreDone | code/server/web_server.cpp:177-182 | one more complete answer behind answers none of which ends the connection keeps it so that only the last one can |
| ConnectionLives.AnswersAreTakenOff | code/http/http_conn.cpp:90-115 | a receiver splits a stream of answers into exactly their bodies |
| ConnectionLives.CutShortIsLeft | code/http/http_conn.cpp:65-88 | from an answer cut short anywhere a receiver takes nothing |
| ConnectionLives.ReceiverUnderstands | code/http/http_conn.cpp:65-115 | what a receiver makes of all that a connection ever sent |
| ConnectionLives.NextAnswer | code/server/web_server.cpp:165-171 | beginning the next answer keeps the account of bytes sent and received |
| ConnectionLives.PartGrows | code/http/http_conn.cpp:65-88 | bytes taken by the kernel extend the account of the connection's life, and complete the answer when none is left |
| ConnectionLives.LevelTriggeredCutsShort | code/server/web_server.cpp:173-192 | for any answer of two bytes or more and a kernel that takes all but one byte: the loop's outcome leaves that byte pending, the others are on the wire, and the connection is closed without an error |
| ConnectionLives.EndOfFileDropsRequest | code/server/web_server.cpp:153-163 | for any text from a socket that holds it and then ends: the text is received, nothing is sent, the connection is closed and the text stays unread |
| ConnectionLives.LeftoverEndsKeepAlive | code/http/http_conn.cpp:17-26 | on a slot whose last connection was closed in mid-file: the request received asks to stay, the whole answer to it is on the wire by one successful write, the old length is still there, and the connection is closed |
| ConnectionLives.ResetBeforeSending | code/server/web_server.cpp:183-191 | a first write that fails for good closes the connection and leaves the lengths as they are |
| JsonText.InsertKeepsAscending | code/config/json_util.h:183-183 | storing a pair keeps the map's keys ascending |
| JsonText.InsertIsUpdate | code/config/json_util.h:183-183 | storing a pair updates the map at its key and nowhere else |
| JsonText.OneListing | code/config/json_util.h:21-21 | a map has one listing with ascending keys |
| JsonText.LessIsDictionaryOrder | code/config/json_util.h:21-21 | keys are ordered as in a dictionary |
| JsonText.IntTextIsSigned | code/config/json_util.h:240-241 | an integer is printed as its decimal digits, behind a minus exactly when it is negative |
| JsonLanguage.LanguageIff | code/config/json_util.h:77-213 | a value is read within a text, up to a position, if and only if a document of that value stands there and ends at that position; white space, given by its character codes, may stand between any two parts, separators may be there or not, and an integer is at most 2147483647 |
| JsonLanguage.DocIsRead | code/config/json_util.h:77-213 | such a document, anywhere in any text, is read as its value, up to its end; only behind a number must the text not extend it |
| JsonLanguage.ValueIsDoc | code/config/json_util.h:77-213 | finds the document behind any value read within a text |
| JsonLanguage.ItemsAreRead | code/config/json_util.h:153-167 | the array loop reads every element in order |
| JsonLanguage.MembersAreRead | code/config/json_util.h:169-193 | the object loop reads every pair, the last of a repeated key winning |
| JsonLanguage.EntriesAreLastValues | code/config/json_util.h:169-193 | an object's entries are the ascending listing, and the only one, of the last value given for each key |
| JsonRoundTrip.DocStandsFor | code/config/json_util.h:232-284 | the generator prints the document of a value without white space |
| JsonRoundTrip.ParsedIsReadable | code/config/json_util.h:77-213 | every parsed value has non-negative 32-bit numbers, quote-free strings and keys, and ascending keys |
| JsonRoundTrip.GeneratedIsParsedBack | code/config/json_util.h:195-284 | a generated readable value is parsed back wherever it stands and nothing more is consumed; only behind a number must the text not extend it |
| JsonRoundTrip.RoundTripIff | code/config/json_util.h:195-284 | a float-free value survives generating and parsing if and only if it is readable |
| JsonRoundTrip.EmptyContainerIff | code/config/json_util.h:153-193 | an empty container is accepted if and only if its brackets touch |
| JsonClosing.PastEndIff | code/config/json_util.h:142-193 | a value is read k characters past the end of a text if and only if k closing characters complete the text to one of that value |
| JsonClosing.ValueIsConsistent | code/config/json_util.h:77-213 | what is read within a text, or within its completion, is read the same in both |
| JsonClosing.ValueIsCompleted | code/config/json_util.h:142-193 | finds the missing closing characters of any value read past the end |
| JsonClosing.StringAcceptedIff | code/config/json_util.h:142-151 | a string is accepted if and only if its quote is closed or is the last character |
| JsonClosing.OpeningCharactersAreAccepted | code/config/json_util.h:142-193 | a text of one opening quote or bracket reads as an empty value |
| JsonCode.JsonParser.ScanString | code/config/json_util.h:142-151 | the cursor loop finds the closing quote |
| JsonCode.JsonParser.ScanArray | code/config/json_util.h:153-167 | the loop computes the specified array and position |
| JsonCode.JsonParser.ScanObject | code/config/json_util.h:169-193 | the loop computes the specified map and position |
| JsonCode.JsonParser.ScanValue | code/config/json_util.h:195-213 | value and position are those of the specification |
| JsonCode.Parser | code/config/json_util.h:215-228 | the whole parser returns the value that `LanguageIff` and `PastEndIff` characterise |
| JsonCode.CommasJoin | code/config/json_util.h:262-271 | dropping the last comma leaves the elements joined by commas |
| JsonCode.OneMoreItem | code/config/json_util.h:262-271 | one more element is printed before the bracket, behind a comma if others precede it |
| JsonCode.OneMoreEntry | code/config/json_util.h:273-284 | one more pair is printed before the brace: its key between quotes as it is, a colon and its value |
| JsonCode.GenerateNode | code/config/json_util.h:232-253 | the generator with its loops prints what the specification prints |
| ServerProtocol.StepIsSafe | code/server/web_server.cpp:63-192 | every step keeps h_fd equal to the key, the epoll set equal to the open connections, userCount their number and at most MAX_FD, a timer node for all of them, and no deadline beyond the timeout |
| ServerProtocol.LoopAssertionsHold | code/server/web_server.cpp:74-89 | the loop's and Adjust's assertions hold, the unexpected-event branch is unreachable, and extending never moves a deadline earlier |
| ServerProtocol.DispatchDecides | code/server/web_server.cpp:74-89 | an event closes its connection if and only if it has one of the three hang-up flags, whatever else it reports; any other queues one task, to read if there is input |
| ServerProtocol.DispatchExtends | code/server/web_server.cpp:136-151 | a read or write event moves its connection's deadline to the timeout from now, and no other |
| ServerProtocol.FireIsEnabledIff | code/timer/timer.cpp:92-105 | a timer may fire if and only if less than a millisecond of the timeout is left since its connection was last accepted, read or written for |
| ServerProtocol.RunFiresOnlyIdle | code/server/web_server.cpp:110-151 | every timer that fires in a run from a punctual state does so for a connection unused that long |
| ServerProtocol.ServerFiresOnlyIdle | code/server/web_server.cpp:110-151 | on every run from the start no timer fires before its connection has been unused for the timeout less a millisecond |
| ServerProtocol.RunIsSafe | code/server/web_server.cpp:63-192 | the invariants hold after every run, for every interleaving of main loop, workers and timer |
| ServerProtocol.StepIsExclusiveIff | code/server/web_server.cpp:43-192 | one-shot delivery and re-arming as a last action keep armed + delivered + in a task at exactly one per open connection, unless such a timer fires |
| ServerProtocol.RunIsExclusiveIff | code/server/web_server.cpp:43-192 | every registered descriptor has exactly one owner and no other any, throughout a run, if and only if no timer in it fires with work outstanding |
| ServerProtocol.StepIsOwnedIff | code/server/web_server.cpp:43-192 | the one step that gives a descriptor two owners is an accept while something of its former connection is outstanding |
| ServerProtocol.RunIsOwnedIff | code/server/web_server.cpp:43-192 | every descriptor has at most one owner throughout a run if and only if no accept in it reuses one that early |
| ServerProtocol.ServerIsOwnedIff | code/server/web_server.cpp:43-192 | that holds of every run from the start of the server |
| ServerProtocol.StepInTurn | code/server/web_server.cpp:136-192 | what is armed, delivered or under way is always the task that must come next for its connection |
| ServerProtocol.ServerInTurn | code/server/web_server.cpp:43-192 | on every run from the start without such reuse, with any timers, each connection's tasks come one at a time and in turn: a read task first, then what the task before armed for, none after a close |
| ServerProtocol.WithoutTimerAlwaysExclusive | code/server/web_server.cpp:43-192 | with the timer off that is so on every run from the start |
| ServerProtocol.TimerCanBreakExclusion | code/server/web_server.cpp:110-115 | with any timeout, a run that ends with a reused descriptor armed and the old task still to come |
| WebServers.WebServer.CloseConn | code/server/web_server.cpp:103-108 | unregisters and closes once |
| WebServers.WebServer.AcceptOne | code/server/web_server.cpp:121-134 | refuses exactly from 65536 connections on; otherwise an accept step that keeps every invariant |
| WebServers.WebServer.AddClient | code/server/web_server.cpp:110-119 | connection, timer node and registration appear together |
| WebServers.WebServer.ExtentTime | code/server/web_server.cpp:148-151 | the sift-down alone keeps the heap valid when no stored deadline is later |
| WebServers.WebServer.DispatchNext | code/server/web_server.cpp:74-89 | one iteration of the event loop on the real heap is a dispatch step, which `DispatchDecides` and `DispatchExtends` describe; heap and invariants kept |
| WebServers.WebServer.FinishTask | code/server/web_server.cpp:153-192 | the end of a task is a finish step, re-arming or closing as its last action |
| WebServers.WebServer.Tick | code/server/web_server.cpp:68-70 | a whole tick with its callbacks is a legal run of firing steps in deadline order |
| WebServers.TickStep | code/timer/timer.cpp:97-104 | each release of a tick is an enabled firing step that keeps the server's invariants |
| ThreadPools.StepKeepsInvIff | code/pool/thread_pool.h:12-52 | every step of any number of workers keeps all pool invariants, except adding a task after the last worker left |
| ThreadPools.QueuedTaskIsNoticed | code/pool/thread_pool.h:16-27 | with a task queued some worker is awake or a notification is pending |
| ThreadPools.TakenInOrder | code/pool/thread_pool.h:16-52 | on every run from the start, tasks taken and tasks queued are those the run added, in its order, and each task taken is running or has finished, once |
| ThreadPools.IdleIsDone | code/pool/thread_pool.h:16-27 | a pool with nothing left to do on its own has finished every added task exactly once |
| ThreadPools.PoolCompletes | code/pool/thread_pool.h:12-52 | left alone, open or closed, a pool finishes every added task within a bounded number of steps |
| ThreadPools.ShutdownNotStuck | code/pool/thread_pool.h:35-43 | a closed pool whose workers have not all left can always take a step |
| ThreadPools.RunKeepsInv | code/pool/thread_pool.h:12-52 | the invariants hold after every run without late tasks |
| ThreadPools.ShutdownCompletes | code/pool/thread_pool.h:12-43 | after close, every run is finite and ends with all workers gone and every added task finished exactly once |
| ThreadPools.NothingLostIff | code/pool/thread_pool.h:12-52 | a closed pool that can go no further has no task left if and only if none was added after the last worker had left |
| ThreadPools.StrandedForGood | code/pool/thread_pool.h:24-52 | once all workers have left, no run starts anything and what is queued stays queued |
| ThreadPools.LateTaskNeverRuns | code/pool/thread_pool.h:24-52 | a run from the start that ends with a task stranded |
| ThreadPools.ThreadPool.LoopOnce | code/pool/thread_pool.h:16-27 | one pass of the worker loop is its step; a worker leaves only from an empty closed pool |
| ThreadPools.ThreadPool.Push | code/pool/thread_pool.h:45-52 | the locked part of AddTask is its step and keeps the invariants |
| AsyncLog.RoomKept | code/log/log.cpp:132-133 | the room seen under l_mutex is still there at the push; the capacity is never exceeded |
| AsyncLog.StepKeepsInv | code/log/log.cpp:115-174 | every step of any number of writers and the consumer keeps locks, room and lines |
| AsyncLog.PushNeverWaits | code/log/block_queue.h:109-117 | a writer that saw the queue not full pushes without waiting and gives up l_mutex |
| AsyncLog.LinesKept | code/log/log.cpp:115-174 | lines written are, as a multiset, those output, in hand and queued, and queued lines leave in order |
| AsyncLog.OrderKeptIff | code/log/log.cpp:132-136 | a step keeps the file in writing order if and only if it does not bypass the queue past a different line |
| AsyncLog.RunInOrderIff | code/log/log.cpp:115-174 | the file is in writing order throughout a run if and only if no write in it bypasses a different line that is still on its way |
| AsyncLog.LineOvertakes | code/log/log.cpp:132-136 | for every capacity a run from the start after which a late line is in the file before all earlier ones |
| AsyncLog.RunKeepsInv | code/log/log.cpp:115-174 | the invariants hold after every run |
| AsyncLog.WorkingStepsProgress | code/log/log.cpp:115-174 | every step that moves a line on lowers a bound on what is left |
| AsyncLog.NeverDeadlocked | code/log/log.cpp:115-174 | while a line is in flight some thread can move it on |
| AsyncLog.LogDrains | code/log/log.cpp:115-174 | left alone, the log drains in a bounded number of steps and every written line is in the file |
| AsyncLog.Log.PushBack | code/log/block_queue.h:109-117 | pushes at the back within capacity; its wait is unreachable |
| AsyncLog.Log.PopFront | code/log/block_queue.h:141-154 | takes the front line, or sleeps on an empty queue |
| SqlPools.StepKeepsAgreement | code/pool/sql_conn_pool.cpp:31-51 | queue length is the semaphore plus threads between wait and pop plus one mid-return, whatever the callers do |
| SqlPools.PermitFindsConnection | code/pool/sql_conn_pool.cpp:37-42 | front() is never called on an empty queue |
| SqlPools.StepConservesIff | code/pool/sql_conn_pool.cpp:31-51 | every connection stays in exactly one place if and only if no thread returns one it does not hold |
| SqlPools.OneHolder | code/pool/sql_conn_pool.cpp:31-51 | no connection has two holders, and none that is held is free |
| SqlPools.RunKeepsPool | code/pool/sql_conn_pool.cpp:8-51 | over every run: agreement always; conservation throughout if and only if every return is of a held connection; then free and held add up to MAX_CONN |
| SqlPools.HandedOutInOrder | code/pool/sql_conn_pool.cpp:31-51 | on every run the connections handed out are the free ones and then those returned, in that order |
| SqlPools.SecondReturnDuplicates | code/pool/sql_conn_pool.cpp:31-51 | a run from a fresh pool whose second return leaves one connection in it twice |
| SqlPools.StartIsFine | code/pool/sql_conn_pool.cpp:8-29 | the filled pool agrees with its semaphore and has every connection once |
| SqlPools.SqlConnPool.TakeFront | code/pool/sql_conn_pool.cpp:38-42 | with a permit, takes the oldest free connection |
| SqlPools.SqlConnPool.FreeConn | code/pool/sql_conn_pool.cpp:46-51 | puts the connection behind the free ones and posts the semaphore |

## Left out

- System calls: readv, writev, epoll, accept and the clock are parameters bound by what their manual pages promise; accept is assumed to return a descriptor that is not open.
- File system: one snapshot stands for stat, open and mmap during a response; an empty file and a mapping that fails after a successful open are excluded by `Mappable`, because the code then reads through the failed mapping; the descriptor the error path leaves open is not modelled.
- Edge-triggered reading: `Read` is given a bound after which the peer stops sending, since the source's loop has none.
- `UserVerify`: the database's answer is an arbitrary function of name, password and kind.
- Regular expression engine: each pattern is the split it denotes.
- `ParseFromUrlEncoded`: the iterator into the body is modelled as the text that remains.
- JSON floating-point numbers: `std::stod` and `std::to_string` are arbitrary functions, so round trips are stated for values without floats.
- JSON reads outside the text: a value looked for at or behind the end (json_util.h:197, for an empty text or behind an opening brace and a key), and a string without its closing quote (json_util.h:145), count as no value, as do the parser's exceptions.
- Clock arithmetic: time points are unbounded integers in nanoseconds.
- ConnectionLives.Serve: assumes that every file, and with it any length left over on the slot, leaves 1024 bytes below 2^31 (`Manageable`, `Ready`), because `ToWriteBytes` narrows the pending total to int.
- The protocol and the connections side by side: `ServerProtocol.ServerInTurn` shows that the server gives every connection its turns in the order `ConnectionLives.Serve` takes them; one state that holds both, with each task's action computed by its connection, is not built.
- Start: its handlers are modelled, one step each, not the outer loop around them; `InitEventMode` is the parameter `isET`.
- Worker threads inside a handler: each handler of the server is one step, so data races within a handler are not modelled.
- Scheduling fairness: completion results bound the number of steps and exclude a standstill; they do not say that the scheduler lets every thread go on.
- Log: formatting, rotation, and the closing path of the log and its queue, where a waiting consumer can sleep for ever.
- `ClosePool`, the pool's guard class, and connections that fail to open.
- Incremental and pipelined HTTP: the parser starts over on each call and takes a following request for a body.
- main.cpp, config.cpp, epoller.cpp and everything under resources/: plumbing and static content.
