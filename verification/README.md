# A verified model of the chat server

A Dafny model of the parts of the chat server in which state, buffers and threads meet, with proofs of what
these parts are for:

- **Framing and sending** (`Frames.dfy`, `Outbox.dfy`, `Session.dfy`). A TCP connection delivers bytes in arbitrary
  chunks. `CSession::HandleRead` is a resumable parser over three shared buffers; `Send` and `HandleWrite` keep a
  queue whose front is the one write in flight. `Frames.Decode` says in eight lines what a whole byte stream
  means; the class `CSession` keeps the fields of the original and is proved against it, including who owns which
  buffer when. `Outbox` is the value the send queue is proved against, with its history.
- **The logic queue** (`LogicQueue.dfy`, `Kinds.dfy`). Any number of sessions post, one worker consumes; one mutex, one condition
  variable, a notification only for the first message and only after unlocking. Every line another thread
  could come between is a step of its own, spurious wake-ups and shutdown included.
- **Login and chat routing** (`Chat.dfy`). The login, logout and one-to-one chat callbacks over the user table, the
  server's map and the sessions of `Session.dfy`, with database operations that may fail.
- **Strings** (`Text.dfy`, `CStrings.dfy`, `Matching.dfy`, `Xml.dfy`). In-place replacement through a scratch buffer,
  splitting, wildcard matching, reading a field from tagged text. `Text` and the functions of the other
  modules are the meaning on values; the methods work on zero-terminated buffers as the original does.
- **SQL placeholders** (`Decimals.dfy`, `Sql.dfy`). 256 successive in-place replacements, from `:256` down to `:1`, as
  one pass over the statement.
- **The process table** (`ProcessTable.dfy`). Heartbeat records in shared memory, a semaphore created by whoever comes
  first, an unlocked scan before the locked claim, removal without the lock, and crashes anywhere.

Some things a reader of the code would not expect came out of the proofs. Each is shown at a concrete input, with
the exact condition under which the code does what it is meant to do where there is one:

- A colon followed by a number above 256 is cut up (`:257` becomes `?7`). The loop rewrites whole placeholders if
  and only if there is no such number in the statement (`Sql.LoopRewritesWholeTokens`, `Sql.OversizeIsCut`).
- A field name with a slash in front meets the closing tags of other fields. `Xml.ReadsBackExactly` gives the
  condition on the names under which every printed text is read back; `Xml.SlashMisleads` is a text that is not.
- A rule without an asterisk accepts a name that merely begins and ends with it (`Matching.AcceptsWithoutAsterisk`;
  by `Matching.BorderIsAccepted` rule `a` accepts `aa`).
- The replacement routine guards its until-gone mode by looking for the old text inside the new one, against
  endless replacing (public/_public.cpp:259-260). That is enough where the new text is not longer
  (`Text.FixpointIsClean`) or meets the old one at no end (`Text.UntilGoneIsOnePass`), and not in general:
  `Text.GuardDoesNotStop` is a pair that passes and is never done.
- A process that dies between creating the semaphore and setting it blocks every later registration for good
  (`ProcessTable.CrashBeforeSetVal`; `ProcessTable.OrphanedByOneCrash` is the run). `ProcessTable.WaiterBlockedExactly`:
  a waiting process can get through if and only if the semaphore is set or its creator still alive to set it.
- A login whose database update fails is reported as a success, and a second one succeeds beside it
  (`Chat.SecondLoginAfterFailedUpdate`). Nobody can be let in twice if and only if the updates of the logins that
  succeed work (`Chat.NeverOpenExactly`); those of logouts do not matter.
- The destructor of the logic system sets its stop flag without the lock and notifies once. A worker that has found
  the queue empty and the flag not set, but does not sleep yet, misses both: `LogicQueue.ShutdownExactly` says from
  which states it can still be brought to its end, and `LogicQueue.ShutdownMissed` is a run that leads to another.
- Field names of 48 characters or more can make the length of a value negative, shorter ones without `<` never
  (`Xml.ReadableExactly`).
- A statement of 6410 characters can outgrow its buffer while it is rewritten (`Sql.LongStatementOverflows`), one of up
  to 5251 never does (`Sql.ShortStatementsFit`); where between the two the limit is, is left open.

The comments in the session (server/src/CSession.cpp:152-155) speak of a refused session being destroyed; the model
follows the code, which removes it from the server's map, arms no further read, and does not call `Close`.

## Model

| member | source | states |
|---|---|---|
| Frames.ShortRoundTrip | server/src/MsgNode.cpp:10-15 | network byte order loses nothing, for every signed short and every pair of bytes |
| Frames.CarriedIs | server/src/MsgNode.cpp:8-18 | of a message whose length no short can say only the beginning is carried: the length modulo 65536, or nothing where that leaves no room for a node |
| Frames.DecodeAppend | server/src/CSession.cpp:121-277 | bytes that arrive later continue from the saved state as if they had been there from the start |
| Frames.ChunkingUnobservable | server/src/CSession.cpp:100-293 | any sequence of chunks from any point of the stream ends in the decoding of the whole stream |
| Frames.AnyTwoChunkingsAgree | server/src/CSession.cpp:100-293 | two ways of cutting the same bytes post the same messages, keep the same bytes and refuse at the same frame |
| Frames.PostedGrows | server/src/CSession.cpp:165-180 | a posted message is never taken back; after a refusal nothing more is posted whatever arrives |
| Frames.StepResumes | server/src/CSession.cpp:121-277 | one round of the read loop leaves unchanged what the bytes at hand amount to |
| Frames.EncodedHead | server/src/MsgNode.cpp:8-18 | the receiver finds in front of the sender's bytes exactly the message sent, and behind it exactly the rest |
| Frames.DecodeEncoded | server/src/MsgNode.cpp:8-18 | concatenated frames decode to exactly the messages, nothing pending; negative ids included |
| Frames.RoundTrip | server/src/CSession.cpp:127-276 | after the frames of a list and part of the next frame in any chunks, exactly the list is posted and exactly that part is pending |
| Frames.DecodeConserves | server/src/CSession.cpp:127-276 | the posted messages, encoded again, and the pending bytes are the received stream: nothing invented, lost or repeated |
| Frames.HeadBehindFrames | server/src/CSession.cpp:158-185 | behind any frames, from the four bytes of a head: refused exactly if id or length, high byte first and below 32768, exceed 2048; stalled exactly if neither does and the length's high byte is 128 or more; what follows is not looked at |
| Frames.BodyBehindHead | server/src/CSession.cpp:158-222 | an accepted head and as many bytes as it announces are the message with the id it names |
| Outbox.StepKeepsInv | server/src/CSession.cpp:31-98 | a message is accepted exactly if at most 1000 are queued, a completion takes exactly the front, an error is final, and the queue's invariant is kept |
| Outbox.RunKeepsInv | server/src/CSession.cpp:31-98 | over every run: accepted is completed then queued, started is completed then the front, at most 1001 are queued, non-empty means a write in flight unless one failed, and after a failure none is started |
| Outbox.EndToEnd | server/src/CSession.cpp:31-98 | send queue, wire and the peer's parser together: for every run and every chunking the peer posts exactly the completed messages in order |
| Session.MsgNode.Send | server/src/MsgNode.cpp:8-18 | the node's buffer holds the frame of the message, of which a length cast to a short takes only the beginning |
| Session.MsgNode.Append | server/src/CSession.cpp:194-195 | copied bytes stand behind those already held, within the buffer |
| Session.MsgNode.Clear | server/include/MsgNode.h:24-27 | the node is empty again and its bytes are zero |
| Session.LogicSystem.PostMsgToQue | server/src/LogicSystem.cpp:19-27 | the node is queued last |
| Session.CServer.HandleAccept | server/src/CServer.cpp:12-34 | an accepted session, in order for reading and sending, has its one read armed and is entered unless its id is taken; a failed accept changes neither; either way a new session, in order and empty, waits for the next connection |
| Session.CServer.ClearSession | server/src/CServer.cpp:36-38 | exactly the named session is forgotten |
| Session.CSession.constructor | server/src/CSession.cpp:7-12 | a new session has decoded nothing, has nothing to send, owns fresh buffers and has given none away |
| Session.CSession.Start | server/src/CSession.cpp:25-29 | one read is armed, and both halves of the session stay in order |
| Session.CSession.HandleReadError | server/src/CSession.cpp:279-288 | after a failed read the socket is closed, the session forgotten, and no read is armed |
| Session.CSession.PostBody | server/src/CSession.cpp:210-225 | the complete body is terminated, queued with its bytes, given away for good, and a head is wanted next |
| Session.CSession.ReadHead | server/src/CSession.cpp:127-233 | a round that starts in a head does one step of the decoding |
| Session.CSession.ParseHead | server/src/CSession.cpp:158-185 | id first, then length: too large is refused and the session forgotten, a negative length stalls the session; which bytes decide it says `Frames.HeadBehindFrames` |
| Session.CSession.StartBody | server/src/CSession.cpp:185-232 | a new node is filled with what is at hand and posted exactly when it is complete |
| Session.CSession.ReadBody | server/src/CSession.cpp:239-276 | a round that starts inside a body does one step of the decoding |
| Session.CSession.ReadRound | server/src/CSession.cpp:121-277 | every further round has consumed at least one byte and the rest amounts to the same result |
| Session.CSession.HandleRead | server/src/CSession.cpp:100-293 | for every chunk: state and posted messages become those of the decoding; nodes already given away keep the bytes they were posted with; one read is armed exactly if the chunk was not empty and the stream not refused; refused sessions are forgotten |
| Session.CSession.ReceiveAll | server/src/CSession.cpp:100-293 | for every list of chunks a new session ends in the decoding of their concatenation; the server has forgotten it exactly if that was refused |
| Session.CSession.ReceiveBadHead | server/src/CSession.cpp:158-185 | a stream of frames with a bad head behind them, in any chunks: the frames are posted, no read is armed, and the session's id is gone from the server exactly if id or length are too large |
| Session.CSession.Send | server/src/CSession.cpp:31-63 | dropped above the limit; refused by an exception where the cast length leaves no room for a node; otherwise the frame is queued last, and its write started only if the queue was empty |
| Session.CSession.HandleWrite | server/src/CSession.cpp:74-98 | a completed front leaves the queue and the next write is started; a failed write closes and forgets the session and starts none |
| Session.CSession.ReadBeside | server/src/CSession.cpp:100-293 | a read of one session leaves the state, the send queue and the given-away buffers of every other one alone, and the two share no object afterwards |
| Session.CSession.SendBeside | server/src/CSession.cpp:31-63 | the same for a message of any length with a defined result that is sent |
| LogicQueue.StepMutex | server/src/LogicSystem.cpp:19-71 | every step keeps: one thread at a time between acquire and release |
| LogicQueue.StepWake | server/src/LogicSystem.cpp:19-36 | every step keeps: a worker asleep over a non-empty queue has a session about to notify it |
| LogicQueue.StepLog | server/src/LogicSystem.cpp:19-71 | every step keeps: posted is handled then queued, and callbacks follow the handled messages one for one |
| LogicQueue.StepSession | server/src/CSession.cpp:210-217 | every step keeps: what a session has posted and still holds is the decoding of what it received |
| LogicQueue.RunKeepsInv | server/src/LogicSystem.cpp:19-71 | all invariants of the queue hold after every run |
| LogicQueue.NoLostWakeup | server/src/LogicSystem.cpp:19-36 | in every reachable state an unsignalled worker over a non-empty queue has some session between its first push and its notification |
| LogicQueue.DeliveredInOrder | server/src/LogicSystem.cpp:19-71 | for every interleaving and every session: handled, then queued, then still to post are its decoded frames, in order and each once |
| LogicQueue.DeliveredAsArrived | server/src/LogicSystem.cpp:19-71 | the same against the bytes that arrived along the run |
| LogicQueue.NotifiesForFirst | server/src/LogicSystem.cpp:19-27 | a session notifies exactly if its own message is the only one queued when it unlocks |
| LogicQueue.CalledOnceEach | server/src/LogicSystem.cpp:38-70 | in every reachable state, between callback and pop too, each handled message with a registered id has had exactly one callback, in order; others none |
| Kinds.NumbersExactly | server/include/const.h:13-23 | the nine kinds of message have the nine numbers from 1001 to 1009, each its own |
| LogicQueue.RegisteredExactly | server/src/LogicSystem.cpp:73-110 | every kind of message has a callback, and no other id has |
| LogicQueue.CalledByKind | server/src/LogicSystem.cpp:38-70 | in every reachable state the callbacks made are the messages handled, and the one about to be popped, whose id is the number of some kind, in order and once each |
| LogicQueue.KindCalled | server/src/LogicSystem.cpp:38-70 | a handled message of any kind was called |
| LogicQueue.OneHolder | server/src/LogicSystem.cpp:19-71 | two threads are never inside the lock together |
| LogicQueue.FrontIsThere | server/src/LogicSystem.cpp:38-70 | front and pop are only reached with something in the queue and the worker holding the lock |
| LogicQueue.OnlyLockAndWaitBlock | server/src/LogicSystem.cpp:19-71 | in every reachable state exactly the lock and the condition variable hold a thread up: each step is possible if and only if the program is at it and, where it needs them, the lock is free or the worker woken |
| LogicQueue.FinishesDrained | server/src/LogicSystem.cpp:38-53 | the worker leaves its loop only after stop, with everything posted handled |
| LogicQueue.DrainsAlone | server/src/LogicSystem.cpp:38-53 | from the moment the worker finds stop set no session gets the lock until it has finished, and then it has handled exactly what was posted at that moment |
| LogicQueue.ShutdownCompletes | server/src/LogicSystem.cpp:12-16 | when the destructor sets stop and notifies while the worker is not on its way to sleep, a number of steps bounded by the queue lets the worker finish |
| LogicQueue.ShutdownExactly | server/src/LogicSystem.cpp:12-16 | the threads inside can bring the worker to its end if and only if it was not on its way to sleep or some session was still to notify it; else, spurious wake-ups apart, it sleeps on |
| LogicQueue.ShutdownMissed | server/src/LogicSystem.cpp:12-36 | the worker's first two steps lead to a state from which it does |
| LogicQueue.LockComesFree | server/src/LogicSystem.cpp:38-70 | before shutdown the lock comes free after at most five steps of its holder, during which the worker handles at most one message |
| LogicQueue.Progress | server/src/LogicSystem.cpp:19-71 | from every state of the invariant with a message queued and the worker not finished, at most eleven steps of the worker and of sessions past the lock, without spurious wake-ups, handle the front message |
| Chat.StepKeepsInv | server/src/LogicSystem.cpp:176-343 | every request, save a login that succeeds without being recorded, keeps: whoever is logged in is online in the table |
| Chat.LoginDecided | server/src/LogicSystem.cpp:194-227 | after any run a login succeeds exactly if the query works, for a registered id with its name and password that is not logged in, and the reply says which |
| Chat.NoSecondLogin | server/src/LogicSystem.cpp:194-220 | in every run from an offline table in which each login that succeeds is recorded, two successful logins of one id have a logout of it between them, whether or not updates of logouts work |
| Chat.NeverOpenExactly | server/src/LogicSystem.cpp:194-220 | at no point of a run can anybody be let in a second time, if and only if each login that succeeds in it is recorded |
| Chat.SecondLoginExactly | server/src/LogicSystem.cpp:194-207 | in a given state some login can succeed for an id still logged in, if and only if a registered user is logged in without being online in the table |
| Chat.SecondLoginAfterFailedUpdate | server/src/LogicSystem.cpp:209-220 | from any state with a registered user who is not online: with an update that fails unnoticed, two logins of that id succeed one after the other |
| Chat.OnlineMeansLoggedIn | server/src/LogicSystem.cpp:209-243 | a user is online exactly if logged in and not out since, and the stored session is that of the last login |
| Chat.RowAfter | server/src/LogicSystem.cpp:176-245 | a request changes the row of its own user only and only if its update works: a valid login to online with the session's id, a logout to offline with none |
| Chat.TableFollowsHistory | server/src/LogicSystem.cpp:176-245 | over every run with working updates the whole table is the first one with each user's state and session from the last login or logout |
| Chat.ChatGoesToCurrentSession | server/src/LogicSystem.cpp:290-343 | a chat message reaches unchanged exactly the session of the addressee's last login if it is mapped, and every session's queue grows by that and the sender's reply, nothing else; a full queue drops them |
| Chat.UserModel.Query | model/userModel.h:46-76 | the row of the id, or the empty user if there is none or the database fails |
| Chat.UserModel.UpdateState | model/userModel.h:80-108 | state and session of the row with that id change, nothing else; nothing at all if the database fails |
| Chat.Callbacks.Accept | server/src/CServer.cpp:12-22 | an accepted connection is the accept step: known, mapped, with an empty queue, and ready for the callbacks |
| Chat.Callbacks.Clear | server/src/CServer.cpp:36-38 | a session the server forgets is the clear step |
| Chat.Callbacks.LoginCallBack | server/src/LogicSystem.cpp:176-228 | an id that is no number is an exception and changes nothing; otherwise the callback is the login step: refused for an unknown id, a wrong name or password, or somebody already online |
| Chat.Callbacks.LogoutCallBack | server/src/LogicSystem.cpp:232-245 | an id that is no number is an exception and changes nothing; otherwise the callback is the logout step, with no reply |
| Chat.Callbacks.OneChatCallBack | server/src/LogicSystem.cpp:290-343 | an id that is no number is an exception and changes nothing; otherwise the callback is the chat step, on the session the server finds for the addressee and on the sender's, and on no other |
| Text.Find | public/_public.cpp:272-283 | the leftmost occurrence from a position on, or -1 exactly if there is none |
| Text.ReplaceBySearch | public/_public.cpp:272-292 | searching for the next occurrence and skipping to it is the left-to-right pass |
| Text.ScratchSuffices | public/_public.cpp:262-266 | the scratch buffer holds the result of every pass that grows a text at most ninefold |
| Text.ScratchExactly | public/_public.cpp:262-266 | it holds the result of one pass over every text if and only if the new text is less than ten times as long as the old |
| Text.TrimLeftIs | public/_public.cpp:132-151 | what is cut off in front is all copies of the character there, and nothing else |
| Text.TrimRightIs | public/_public.cpp:156-171 | what is cut off behind is all copies of the character there, and nothing else |
| Text.TrimIs | public/_public.cpp:132-171 | trimming both ends leaves what stands between all copies of the character at the two ends |
| Text.SpliceMoves | public/_public.cpp:285-289 | a replacement of equal length moves the text, read as a number, in one direction only |
| Text.FixpointIsClean | public/_public.cpp:272-292 | replacing by something that is not longer and does not contain the old text until nothing is left ends, with none left |
| Text.UntilGoneIsOnePass | public/_public.cpp:272-292 | so does replacing by something that is not shorter, does not contain the old text and shares no end with its beginning or beginning with its end; and it does what the one pass does |
| Text.FixpointOfSlashes | public/_public.cpp:1509-1511 | replacing double by single slashes collapses every run of slashes to one |
| Text.GuardDoesNotStop | public/_public.cpp:259-292 | a pair of texts that passes the guard and, on infinitely many inputs, is never done |
| CStrings.StrNCpy | public/_public.cpp:29-40 | the first n characters, cut off at the capacity, terminated |
| CStrings.StrCat | public/_public.cpp:48-59 | appended, cut off at the capacity, terminated |
| CStrings.ReplaceAt | public/_public.cpp:285-289 | the round trip through the scratch buffer replaces one occurrence |
| CStrings.PassGoesOn | public/_public.cpp:280-291 | restarting behind the inserted text neither misses old text nor sees new text, and the rest shrinks |
| CStrings.UpdateStr | public/_public.cpp:253-293 | in place, one pass is replace-all of the leftmost non-overlapping occurrences; until-gone mode is the first text of its rounds without the old one, whenever there is one; the guard leaves the text alone |
| CStrings.DisjointHasRoom | public/_public.cpp:262-292 | for such texts until-gone mode needs the room of the one pass |
| CStrings.UpdateUntilGone | public/_public.cpp:1509-1511 | for new text that is not longer and does not contain the old, until-gone mode needs no more room than the text has and gives the fixpoint |
| Matching.JoinSplit | public/_public.cpp:621-668 | joining the fields gives the input back |
| Matching.SplitJoin | public/_public.cpp:621-668 | splitting a join gives the fields back if and only if the separator is first seen at each field's end and not in the last field |
| Matching.ReplacedIsSwapped | public/_public.cpp:272-292 | replacing all is splitting at the old text and joining with the new |
| Matching.TrimmedFields | public/_public.cpp:621-668 | trimming keeps the fields apart and takes the spaces at the two ends of each and nothing else |
| Matching.CCmdStr.SplitToCmd | public/_public.cpp:621-668 | the vector holds the fields, space-trimmed if asked for |
| Matching.AcceptsIffFits | public/_public.cpp:371-394 | with an asterisk, leftmost search accepts exactly the names for which some texts can stand for the asterisks |
| Matching.AcceptsWithoutAsterisk | public/_public.cpp:371-394 | without one it accepts exactly the rule itself and the names it properly begins and ends |
| Matching.BorderIsAccepted | public/_public.cpp:371-394 | rule "a" accepts the name "aa" |
| Matching.MatchAlternative | public/_public.cpp:371-394 | the loop over the pieces makes exactly that test |
| Matching.MatchStr | public/_public.cpp:342-398 | true if and only if some non-empty alternative fits the name, letter case apart; empty rules match nothing and a lone asterisk everything; what that means in terms of name and rules say the next rows |
| Matching.CaseIsIgnored | public/_public.cpp:355-361 | names equal but for the case of letters and rules equal but for the case of letters give the same answer |
| Matching.MatchesOneOf | public/_public.cpp:363-368 | a name matches rules separated by commas if and only if it matches one of them on its own |
| Matching.RuleWithAsterisks | public/_public.cpp:371-394 | a rule with asterisks is matched if and only if some texts can stand for them with which it becomes the name but for letter case |
| Matching.RuleWithoutAsterisk | public/_public.cpp:371-394 | a rule without is matched if and only if it both begins and ends the name but for letter case |
| Matching.PlainRule | public/_public.cpp:355-394 | of the name's length it is matched if and only if it is the name but for letter case: nothing else is taken for equal |
| Matching.OnlyCommas | public/_public.cpp:343-368 | rules of commas alone match nothing |
| Xml.DeleteLChar | public/_public.cpp:132-151 | the buffer is trimmed in place at its front |
| Xml.DeleteRChar | public/_public.cpp:156-171 | the buffer is trimmed in place at its end |
| Xml.TagsDoNotOverlap | public/_public.cpp:797-809 | the closing tag found ends behind the opening one, so the value's length is never negative |
| Xml.FindField | public/_public.cpp:788-809 | where the two searches place the value, long tags cut off |
| Xml.GetXMLBuffer | public/_public.cpp:782-824 | the value between the first opening and the next closing tag, its first characters if there is a limit, freed of the spaces at its two ends and of nothing else; false exactly if a tag is missing |
| Xml.PlainNamesAreReadable | public/_public.cpp:788-809 | for names of up to 46 characters without opening bracket the tags are whole and the value's length is never negative, in every text |
| Xml.ReadableExactly | public/_public.cpp:788-809 | for names without opening bracket the length is never negative if and only if they have at most 47 characters |
| Xml.CutOpenIsUnreadable | public/_public.cpp:788-809 | for any longer name it is in the text made of the two cut tags |
| Xml.StrayClose | public/_public.cpp:797-809 | what is read for a name whose opening tag is another field's closing tag |
| Xml.ReadBack | public/_public.cpp:782-824 | from a printed text the first field of the name is read, and nothing exactly if there is none, unless the names are misleading |
| Xml.ReadsTagged | public/_public.cpp:782-809 | in characters: behind text without tags, what stands between the tags of a name is read |
| Xml.ReadsBackExactly | public/_public.cpp:782-824 | that holds for all values and gaps if and only if the names are not misleading |
| Xml.SlashMisleads | public/_public.cpp:797-809 | in a text with fields "a" and "/a" the value of "/a" is not what is read for "/a" |
| Xml.PlainNamesAreSafe | public/_public.cpp:782-824 | asking for a name without a slash in front is never misleading |
| Decimals.ValueOfDec | public/db/_mysql.cpp:427 | the printed number denotes that number, without superfluous zeros |
| Decimals.PrefixValue | public/db/_mysql.cpp:424-429 | a proper prefix of a number is a smaller number, so the descending order tries the longer one first |
| Sql.Stage | public/db/_mysql.cpp:424-429 | one more replacement lowers the bound of the one-pass rewriting by one |
| Sql.LoopIsOnePass | public/db/_mysql.cpp:422-429 | for every statement the 256 replacements are one pass that takes the longest number up to 256 after each colon |
| Sql.GreedyAgainstWhole | public/db/_mysql.cpp:422-429 | that pass is the rewriting of whole placeholders without oversize numbers, and shorter than it with one |
| Sql.LoopRewritesWholeTokens | public/db/_mysql.cpp:422-429 | the loop rewrites whole placeholders and nothing else if and only if no colon is followed by a number above 256 |
| Sql.LastParameter | public/db/_mysql.cpp:422-429 | ":256" becomes "?" |
| Sql.OversizeIsCut | public/db/_mysql.cpp:422-429 | ":257" becomes "?7" |
| Sql.InOrderPlaceholders | public/db/_mysql.cpp:422-429 | with :1 to :n in order the i-th mark stands where :i stood, and all other text is unchanged |
| Sql.RulesKeepMarks | public/db/_mysql.cpp:431-444 | the dialect rewritings neither add nor remove a mark |
| Sql.FiveSwaps | public/db/_mysql.cpp:431-444 | for every statement, in literal texts: five texts in turn give way to five others, the first and the last only if their new form is not there already |
| Sql.SettledStays | public/db/_mysql.cpp:431-444 | a text without the old names, or that has the guarded new ones already, is handed on as it is; without a colon the statement itself is |
| Sql.DatesRewritten | public/db/_mysql.cpp:433 | every copy of to_date between texts gives way to str_to_date, the texts are kept |
| Sql.CharsRewritten | public/db/_mysql.cpp:435 | the same for to_char and date_format |
| Sql.DashedRewritten | public/db/_mysql.cpp:437 | the same for the date format with dashes and colons |
| Sql.CompactRewritten | public/db/_mysql.cpp:439 | the same for the date format without |
| Sql.SysdateRewritten | public/db/_mysql.cpp:444 | the same for sysdate and sysdate() |
| Sql.ParameterCount | public/db/_mysql.cpp:406-446 | the text handed to the database has as many parameters as placeholders were written |
| Sql.RewritePlaceholders | public/db/_mysql.cpp:422-429 | the loop, in place in the statement buffer, and always with room enough |
| Sql.RewriteDialect | public/db/_mysql.cpp:431-444 | the rewritings in order, in place, each skipped where its guard says so; what they do to a text says `Sql.FiveSwaps` |
| Sql.SqlStatement.Prepare | public/db/_mysql.cpp:406-446 | a closed statement is refused untouched; otherwise the buffer holds the rewritten text, as `Sql.FiveSwaps` and `Sql.LoopRewritesWholeTokens` describe it |
| Sql.SqlStatement.Connect | public/db/_mysql.cpp:229-257 | the statement is open if it was or a connection is available |
| Sql.SqlStatement.Disconnect | public/db/_mysql.cpp:263-283 | the statement is closed, and its text cleared if it was open |
| Sql.PassKeepsWeight | public/db/_mysql.cpp:431-444 | a pass adds no weight to a text if its new text weighs no more than the old |
| Sql.ShortStatementsFit | public/db/_mysql.cpp:431-444 | a statement of up to 5251 characters never outgrows the buffer |
| Sql.CopiesPrepared | public/db/_mysql.cpp:431-444 | n copies of "systo_char" end up as n copies of "sysdate()_format" |
| Sql.LongStatementOverflows | public/db/_mysql.cpp:431-444 | 641 of them, 6410 characters, outgrow the buffer |
| ProcessTable.StepSem | public/_public.cpp:2144-2212 | every step keeps the semaphore's invariant |
| ProcessTable.StepTable | public/_public.cpp:2241-2328 | every step keeps what each process relies on in the table, whatever the others do |
| ProcessTable.RunKeepsInv | public/_public.cpp:2144-2328 | both hold after every run of any number of processes |
| ProcessTable.OwnsItsRecord | public/_public.cpp:2279-2328 | a live registered process owns the record at its position, with its data and its last heartbeat, and no other carries its pid |
| ProcessTable.NoPidTwice | public/_public.cpp:2273-2304 | a pid stands in at most one record, stale records and reused pids included |
| ProcessTable.RegistersExactly | public/_public.cpp:2284-2308 | with the lock free, a waiting process that nobody disturbs registers if and only if it found its own stale record or some record is free, in that record; otherwise it fails and the table is as it was |
| ProcessTable.AnyoneRegistersExactly | public/_public.cpp:2241-2308 | the same from every point before P: if and only if some record carries its own pid or none, in the first with its own, else the first with none, with the time taken when the scan began |
| ProcessTable.StartedAlone | public/_public.cpp:2241-2308 | a process started beside any others and left to itself takes the stale record of its pid, else the first free record, else fails |
| ProcessTable.FirstProcess | public/_public.cpp:2144-2308 | the first process of all creates and sets the semaphore and registers in the first of a thousand records |
| ProcessTable.FullOnlyIfTaken | public/_public.cpp:2286-2301 | over every run a process gives up only after it has looked at each record and found it taken |
| ProcessTable.InfoIsGiven | public/_public.cpp:2265-2304 | what a process writes is what it was started with, in its last start |
| ProcessTable.BeatIsLast | public/_public.cpp:2270-2319 | the time in its record is that of its last heartbeat, or that at which its registration came to the scan |
| ProcessTable.ValuePlusHolders | public/_public.cpp:2144-2212 | nobody passes P before SETVAL; afterwards value plus holders is one |
| ProcessTable.BeatTouchesOwnRecord | public/_public.cpp:2312-2319 | a heartbeat changes the time of its own record only |
| ProcessTable.ExitFreesOwnRecord | public/_public.cpp:2321-2324 | leaving frees its own record only |
| ProcessTable.TableTouchedOnlyBy | public/_public.cpp:2241-2328 | nothing but writing a registration, a heartbeat and a registered process's exit touches the table; a dead process's record stays |
| ProcessTable.OnlyTheLockBlocks | public/_public.cpp:2241-2328 | positions stay within the table and the semaphore is there when needed: start, registration, heartbeat, exit and crash can take place exactly where the program has them, save for waiting in P |
| ProcessTable.WaiterGetsThrough | public/_public.cpp:2284-2308 | unless the semaphore is orphaned, a bounded number of lines of a process waiting in P and of one other, the holder or the creator, takes it to the end of its registration; how that ends says `ProcessTable.RegistersExactly` |
| ProcessTable.WaiterBlockedExactly | public/_public.cpp:2164-2179 | a waiting process can get through if and only if the semaphore is not orphaned, that is, unset with nobody left to set it |
| ProcessTable.CrashBeforeSetVal | public/_public.cpp:2164-2179 | if the creator dies between creating and setting the semaphore it is orphaned, and no process ever gets through a registration |
| ProcessTable.OrphanedByOneCrash | public/_public.cpp:2158-2179 | a process that starts, makes two lines and dies orphans it |

## Left out

- Session.CSession.HandleRead: a negative length stops the session for good; for lengths below -1 that is the swallowed allocation failure, for -1 the original writes in front of an empty allocation, which has no defined result.
- Session.CSession.Send: one method for the two overloads. Payloads whose length, cast to a short, lies between -5 and -1 are asked not to occur; there the original writes outside its allocation. What an exception does to the callback that called is not followed.
- Session.MsgNode.Send: asks for a cast length a node has room for; with any other the allocation fails before this point, as `Session.CSession.Send` says.
- Session.LogicSystem.PostMsgToQue: what the session sees of the queue; locking and waking are in `LogicQueue`, where a read is decoded first and its messages are then posted one by one.
- CStrings.UpdateStr: stands for both copies of the routine. It asks for room for every text on the way in the text's buffer and in the scratch buffer, so the cutting off of one copy and the overflow of the other never happen, and in until-gone mode for a text on which the loop ends at all. For new text that is longer than the old and overlaps with it no condition for that is given.
- Sql.SqlStatement.Prepare: asks for room for the dialect rewritings, the only ones that lengthen a statement; the original does not look and writes past its buffer. Formatting arguments are taken as already put in.
- Sql.RewriteDialect: the same.
- Matching.MatchAlternative: where the last piece is longer than the name the original compares memory in front of the name; the model takes that for a mismatch.
- Matching.MatchStr: letter case is that of the letters a to z, as in the original; the conversion is a function here, not a loop.
- Xml.GetXMLBuffer: asks that the value's length does not come out negative, in which case the original copies without end; and for room for what is read. For names with `<` in them, whose two tags can overlap, no exact condition is given.
- Chat.Callbacks.LoginCallBack: the payload is taken apart by a library; what is made of its id is a parameter. Replies are an unspecified function of the code that fits into a frame, and texts fit the table's fields. Nobody in the original catches the exception of an id that is no number; what follows from that for the worker is not modelled, and `LogicQueue` takes callbacks to return.
- Chat.Callbacks.LogoutCallBack: the same for its payload.
- Chat.Callbacks.Accept: session ids are random in the original and taken here never to repeat.
- Chat.Callbacks.OneChatCallBack: the same for its payload. A success reply does not mean delivery, as `Chat.ChatGoesToCurrentSession` shows.
- ProcessTable.RunKeepsInv: one registration attempt per process, pids unique among living processes, semaphore calls that succeed, a new semaphore starting at 0, and a record copied or cleared in one step. Nobody else clears records.
- LogicQueue.Progress: says that progress is possible from every state, not that a scheduler makes it; so does ProcessTable.WaiterGetsThrough. The same holds of LogicQueue.ShutdownExactly, which is about the threads already inside: a session that gets the lock later wakes the worker too.
- Outbox.EndToEnd: the peer reads frames as this server's own parser does; the client of the repository has a loop of its own, which is not part of this model.
- Sockets, threads and timers themselves: their completions are the calls and steps of the model. Data races on the session map are left out with them; its operations are single steps.
- Marking users offline when a connection breaks, which the original does not do either.
- Registration, friends, groups, the hello message: one database call and one reply each, easy members beside the ones above.
- Logging, file, directory and time classes, the whole-buffer socket reads and writes (an easier form of the framing), the client and the web pages.
