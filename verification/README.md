# Dafny model of the login services and of the Bazel tools shipped beside them

The repository's own product is a chat-style login system: a receiver, a dispatcher and a
login manager, each running one epoll loop, over two MySQL tables.  Its promise is that a
user is logged in on one terminal at a time and that a terminal that loses its session is
told.  The rest of the repository is a copy of Bazel's tool sources, from which this project
takes the algorithms with the most state, branching or arithmetic.

Each part has a specification written independently of the code (a map, a one-shot
definition, a splitter, a stack walk, a least closed set, a grammar) and theorems that tie
the code to it for every input or every run.  Code that updates state is modelled as classes
and loops; each method is proved equal to a function, and the theorems are about that
function.

| files | part |
|---|---|
| `LoginTables`, `LoginSpec`, `LoginRuns`, `LoginService` | the tables, the calls, their runs, and the classes that issue the statements |
| `Messages`, `MessageServices`, `Answers`, `Evictions`, `Terminals`, `Replies` | the message hops around a call and the classes that make them, what the requester is told, who is told of an eviction, which terminal reads it, and which reply a request reads |
| `EventLoop`, `Handlers` | the read/write alternation of the epoll loop, and what the services' handlers make of it |
| `TextLines`, `DexManifest`, `DeviceSync`, `Installer` | the incremental installer as a commit protocol, with its manifests |
| `Md5Spec`, `Md5Macros`, `Md5` | streaming MD5, with its macros on 32-bit words, against sections 3.1 to 3.5 of RFC 1321 |
| `Quoting`, `CommandLine` | Windows argument quoting against the Microsoft C runtime's splitting rules |
| `PathSegments`, `WindowsPath`, `WindowsMeaning`, `PosixPath` | path normalisation, joining and splitting, against directory trees |
| `Pruner`, `DeadCode` | reachability in the dead-code pruner |
| `ArArchive`, `ArFile`, `ArHeader` | the `ar` archive writer and reader, and where the bytes of a header stand |
| `Basics`, `Digits` | optional values, bytes, stripping, and numbers written in digits |
| `Numbers` | overflow-checked integer parsing |

Where a promise does not hold of the code, the code is kept and the theorem is an
if-and-only-if whose condition can be checked before the call:

- A login keeps the single-terminal property unless it takes over a row whose key does not
  survive the trip through `int` (`LoginSingleIff`), and such a row also survives a logout
  that reports success (`LogoutEndsSessionIff`): `LargeKeyKeepsTwoTerminals`,
  `LargeKeySurvivesLogout`.
- `isAlreadyLogined` returns -1 from a `bool` function when its select fails, which reads as
  "logged in"; the login manager then dies on its `assert` exactly when nobody is
  (`LoginCrashIff`): `RejectedSelectCrashes`.
- An evicted terminal is told exactly when the reply comes back, the write to it succeeds and
  the client has not planted a `logoutFd` of its own (`EvictionToldIff`):
  `PlantedFdIsNotTold`.  A login manager killed after the takeover's update evicts silently
  (`KilledLoginEvictsIff`): `KilledLoginIsSilent`.  The notice goes to an fd, and reaches the
  terminal that logged in exactly when it logged in under its own fd and that fd was not
  closed since (`NoticeReachesTerminalIff`): `StrangerReadsNotice`.
- A request reads the next reply in the connection, which is its own exactly while no read of
  a reply has failed (`StaysMatchedIff`): `SecondReadsFirst`.  A request that is not answered
  blocks its asker (`BlocksIff`, `SaysIff`).
- The epoll loop stays sound exactly while the handler and `epoll_ctl` succeed
  (`StepSoundIff`): a failed handler leaves the fd armed with a freed buffer
  (`FailedHandlerMisuses`).  A message without a known type is enough to make the dispatcher's
  handler fail (`DispatcherSoundIff`): `UntypedMessageMisuses`.  Failed reads, re-armings and
  registrations leak (`StepLeakIff`): `FailedReadLeaks`.
- Wiping the device directory half way is harmless exactly when the manifest went first or
  nothing went (`InterruptedWipeIff`): `HalfWipedIsInconsistent`.  A dex manifest cut off in
  its own push is harmless exactly when nothing or all of it arrived, a native one exactly
  when all of it did (`TornDexManifestIff`, `TornNativeManifestIff`):
  `TornDexManifestIsInconsistent`, `EmptyNativeManifestIsInconsistent`.  The next run then
  fails, or leaves files that no build asked for (`AfterTornDexManifest`,
  `AfterTornNativeManifest`).
- A dex manifest is read back exactly when no name in it has a blank or a newline, no input
  file begins with white space and no checksum ends with it (`ManifestRoundTripIff`), a native
  one exactly when no library name has a space or a newline (`NativeManifestIff`):
  `SpaceInNameIsLost`.
- Quoting narrows each character to a `char`, so other characters can pass for a quote or a
  backslash, and a tab alone does not make it quote (`RoundTripIff`): `TabDoesNotComeBack`,
  `FakeQuoteDoesNotComeBack`.
- Windows normalisation turns a rooted path into a relative one and can bring a drive to the
  front of a relative path (`MeaningKeptIff`, `IdempotentIff`): `BackslashLosesMeaning`,
  `HiddenDrive`.  In every other case the result leads where the path leads in every directory
  tree (`NormalizedLeads`).
- Joining the two halves of a path gives it back exactly when no slash precedes the last one
  (`SplitJoinIff`), which every normalised path meets: `DoubleSlashDoesNotJoin`.
- An archive is read back exactly when every member keeps the bounds of its columns
  (`ArchiveBackIff`): `SixteenByteNameIsLost`.
- `safe_parse_sign` trims white space at the end but does not hand the new end back, so
  digits followed by white space are refused (`SucceedsIff`): `TrailingSpaceFails`.

## Model

| member | source | states |
|---|---|---|
| `LoginRuns.SingleTerminalAlways` | service/loginManager/login/loginer.cpp:15-265 | over every run of register, login and logout, with any pattern of failed and lost statements and of crashes, no user has two rows with status 1, user names stay unique, every session row carries a registered pair, rows are never removed and a status only moves from 1 to 2, while keys stay below 2^31 |
| `LoginRuns.LoginSingleIff` | service/loginManager/login/loginer.cpp:15-83 | a login keeps one terminal per user if and only if, when it takes over a session, that row's key survives being stored in an `int` |
| `LoginRuns.TakeoverSingleIff` | service/loginManager/login/loginer.cpp:251-265 | the takeover's update and insert leave one terminal if and only if the update names the old row's key |
| `LoginRuns.LargeKeyKeepsTwoTerminals` | service/loginManager/login/loginer.cpp:207-234 | with key 2^31 a login that reports success leaves the old terminal logged in too |
| `LoginRuns.LargeKeySurvivesLogout` | service/loginManager/login/loginer.cpp:116-132 | with key 2^31 a logout that reports success leaves the session |
| `LoginRuns.RejectedSelectCrashes` | service/loginManager/login/loginer.cpp:165-189 | a registered user with no session and a rejected second select: the process ends |
| `LoginRuns.LoginCrashIff` | service/loginManager/login/loginer.cpp:165-234 | the process dies in a login exactly when the pair is registered, the second select fails and nobody is logged in |
| `LoginRuns.LoginReportsEviction` | service/loginManager/login/loginer.cpp:64-83 | a row that a login takes out of status 1 belongs to that user and its fd is returned in `logoutFd`, also when the login then fails |
| `LoginRuns.LoginShape` | service/loginManager/login/loginer.cpp:15-83 | a login keeps keys increasing, users unique and sessions registered, and only appends rows or moves a status to 2 |
| `LoginRuns.TakeoverSessions` | service/loginManager/login/loginer.cpp:251-265 | the session map after each combination of answers to the two statements of a takeover |
| `LoginRuns.LoginSessions` | service/loginManager/login/loginer.cpp:15-83 | the session map after a login, for every combination of the up to five answers |
| `LoginRuns.LoginRefines` | service/loginManager/login/loginer.cpp:15-83 | a successful login sets the user's entry to the new fd and returns the old one or -1; a failed one changes nothing, or removes that user only (or, if the server lost the answer to the insert, has set the entry); other users are untouched |
| `LoginRuns.LogoutRefines` | service/loginManager/login/loginer.cpp:88-136 | a successful logout removes the user's entry, a failed one removes it or changes nothing |
| `LoginRuns.LogoutEndsSessionIff` | service/loginManager/login/loginer.cpp:88-136 | a logout that reports success has ended the session if and only if the row's key fits an `int` |
| `LoginRuns.RegistRefines` | service/loginManager/regist/register.cpp:15-88 | registering adds a new name with its password, or reports that the name is taken and changes nothing |
| `LoginRuns.ExecSafe` | service/loginManager/login/loginer.cpp:15-265 | any one call keeps the invariant, only grows the tables and moves the two maps as allowed |
| `LoginRuns.RunRefinesMaps` | service/loginManager/login/loginer.cpp:15-265 | with a server that does not fail, a run has the effect of the same run on a map of passwords and a map of fds |
| `LoginTables.SessionsAfterHit` | service/loginManager/login/loginer.cpp:114-126 | setting out a user's live row by its key removes that user from the session map and nothing else |
| `LoginTables.LiveAfterHit` | service/loginManager/login/loginer.cpp:251-258 | after the update of a takeover the user has no live row |
| `LoginTables.SessionKey` | service/loginManager/login/loginer.cpp:165-189 | the session map has a user exactly when a select finds a live row, and gives the fd of the last one |
| `LoginTables.ToInt` | service/loginManager/login/loginer.cpp:118-118 | a number read into an `int` is unchanged exactly when it is below 2^31 |
| `LoginSpec.KnownPairMeaning` | service/loginManager/login/loginer.cpp:138-163 | the count of matching accounts is non-zero exactly when the pair is registered |
| `LoginSpec.AnswersLoginedMeaning` | service/loginManager/login/loginer.cpp:165-189 | `isAlreadyLogined` is true exactly when the user has a session or the select failed |
| `LoginSpec.OnlyEvictionReadsLogout` | service/messageReceiver/messageReceiver.cpp:102-150 | no reply text other than the eviction order reads "logout", whatever the user is called |
| `LoginService.SqlApi.Select` | mylib/mylib_sql/sqlApi.cpp:56-85 | a select appends its rows to the buffer and sets the counts, or fails and leaves them |
| `LoginService.SqlApi.GetResult` | mylib/mylib_sql/sqlApi.cpp:42-54 | the buffer is handed over and cleared |
| `LoginService.SqlApi.UpdateStatus` | mylib/mylib_sql/sqlApi.cpp:98-107 | the update runs, is refused, or runs with its answer lost |
| `LoginService.SqlApi.InsertSession` | service/loginManager/login/loginer.cpp:191-205 | the insert adds one live row with a fresh key, is refused, or has its answer lost |
| `LoginService.Loginer.ProcessLogin` | service/loginManager/login/loginer.cpp:15-86 | the statements issued one by one have the effect, the outcome and the outputs of the login step |
| `LoginService.Loginer.ProcessLogout` | service/loginManager/login/loginer.cpp:88-136 | likewise for logout |
| `LoginService.Loginer.IsValidUserNameAndPassword` | service/loginManager/login/loginer.cpp:138-163 | valid exactly when the count read into an `int` is not zero |
| `LoginService.Loginer.IsAlreadyLogined` | service/loginManager/login/loginer.cpp:165-189 | true when the count is not zero and when the select fails |
| `LoginService.Loginer.GetAlreadyLoginedClientFd` | service/loginManager/login/loginer.cpp:207-234 | the fd and the narrowed key of the one live row; anything but one row ends the process |
| `LoginService.Loginer.SetLogoutStatusThenLogin` | service/loginManager/login/loginer.cpp:251-265 | update, then insert only if the update reported success |
| `LoginService.Register.ProcessRegist` | service/loginManager/regist/register.cpp:15-88 | the two statements have the effect of the register step |
| `Evictions.EveryRunNotifies` | service/messageReceiver/messageReceiver.cpp:46-150 | over every run of requests, whatever the messages hold, the database answers, whichever socket calls fail and after whichever statement the login manager is killed: one terminal per user, and a terminal logged out by another login is written "logout" before the requester is answered, exactly when the reply and that write get through and the message planted no other fd |
| `Evictions.EvictionToldIff` | service/messageReceiver/messageReceiver.cpp:102-150 | for any message at all, a terminal that loses its session to a login is told first if and only if the reply comes back, the write to it succeeds, its fd is positive and the message brought no other `logoutFd` |
| `Evictions.EvictionIsReported` | service/loginManager/login/loginer.cpp:69-80 | a row that leaves status 1 in a call belongs to the user logging out, or its fd is the call's `logoutFd`, on the error path too |
| `Evictions.KilledLoginEvictsIff` | service/loginManager/login/loginer.cpp:251-265 | a login killed after n statements has ended a session if and only if the takeover's update was among them and ran; nothing is sent to anybody then |
| `Evictions.KilledLoginIsSilent` | service/loginManager/login/loginer.cpp:251-265 | a takeover killed after its fourth statement: the session is gone and nothing is sent |
| `Evictions.PlantedFdIsNotTold` | service/loginManager/main/userLoginImpl.cpp:96-124 | a login that plants `logoutFd` 7 evicts the terminal on fd 5, which is not told |
| `Evictions.AttemptKeeps` | service/loginManager/main/userLoginImpl.cpp:20-94 | one request, cut off or not and whatever it holds, keeps the invariant and only grows the tables |
| `Evictions.LogoutTouchesOwnRow` | service/loginManager/login/loginer.cpp:88-136 | a logout takes only its own user's row out of status 1 |
| `Terminals.NoticeReachesTerminalIff` | mylib/mylib_daemon/daemon.cpp:148-230 | over every run of connections, closes and requests, the terminal that reads an eviction notice is the one that logged in if and only if its login named no other fd and its fd was not closed in between |
| `Terminals.StrangerReadsNotice` | mylib/mylib_daemon/daemon.cpp:148-230 | a terminal logs in and closes, another is accepted on its fd, a third logs in: the notice goes to the second |
| `Terminals.RunConnectedIff` | mylib/mylib_daemon/daemon.cpp:148-230 | a session's terminal is still behind its fd exactly when that fd was not closed; a reused fd belongs to another terminal |
| `Terminals.LoginConnectsIff` | service/messageReceiver/messageReceiver.cpp:83-100 | a login opens its session for the connection that asked if and only if its message names no other fd |
| `Messages.ServeRunsCall` | service/loginManager/main/userLoginImpl.cpp:20-124 | a request runs exactly the call it names; the outcome goes to the client, and before it "logout" to the fd found in the reply, as far as the socket calls succeed |
| `Answers.AnswerIff` | service/loginManager/main/userLoginImpl.cpp:20-94 | a requester that is answered reads "login success!" if and only if its message was a login of a registered pair whose statements were all done, and then the user's session is on that fd; likewise "logout success!" with the session gone and "regist success!" with the account added; every other request reads none of the three |
| `Answers.AnswerTells` | service/loginManager/main/userLoginImpl.cpp:37-81 | the exact text for every call, from the accounts, the sessions and the server's answers |
| `Answers.RefusalTells` | service/loginManager/main/userLoginImpl.cpp:30-81 | the exact text for a message that names no call |
| `Answers.AnsweredIff` | service/messageReceiver/messageReceiver.cpp:102-150 | a message without an `extendInfo` of its own is answered if and only if its call returns and every socket call it needs succeeds |
| `Answers.UnansweredReadsNothing` | service/messageReceiver/messageReceiver.cpp:125-150 | where the answer cannot be written, nothing but "logout" is sent to anybody |
| `Answers.ReplyCode` | service/loginManager/main/userLoginImpl.cpp:26-94 | the code in the reply is 0 exactly for the calls that succeeded, -3 for a name that is taken, -1 otherwise |
| `Answers.RegistMessageCall` | client/processCommandLine/Regist.h:58-71 | a message of type 1 registers its user name with its password |
| `Answers.LogoutMessageCall` | client/processCommandLine/Logout.h:57-68 | a message of type 3 logs its user out, without a password |
| `Evictions.LoginMessageCall` | client/processCommandLine/Login.h:58-71 | a message of type 2 logs its user in on the receiver's fd |
| `Messages.ServeRefuses` | service/loginManager/main/userLoginImpl.cpp:126-140 | any other message, and one that is lost on the way, leaves the tables alone |
| `Messages.HopsCarry` | service/messageDispatcher/messageDispatcher.cpp:101-157 | what reaches the login manager holds the client's own items, and the receiver's fd and the dispatcher's operation unless the client put its own first |
| `Messages.CallFdIff` | service/messageReceiver/messageReceiver.cpp:83-100 | a login runs with the receiver's fd if and only if the message brought no `extendInfo` or one with that fd |
| `Messages.ReplyCarries` | service/loginManager/main/userLoginImpl.cpp:96-124 | the receiver reads back the text the login manager put in, and its fd unless the message brought one |
| `Messages.GetAfterAdd` | service/messageReceiver/messageReceiver.cpp:83-100 | an added key is readable exactly when no earlier item has it, and no other key changes |
| `MessageServices.UserLoginImpl.DealClientMessage` | service/loginManager/main/userLoginImpl.cpp:20-94 | the overwritten status variables end up as the handling function says, error paths included; `Answers.AnswerIff` says what that text tells |
| `MessageServices.UserLoginImpl.ProcessLogin` | service/loginManager/main/userLoginImpl.cpp:142-181 | a missing item refuses, one of the wrong type ends the process, otherwise the login runs with the fd found in the message |
| `MessageServices.UserLoginImpl.ProcessLogout` | service/loginManager/main/userLoginImpl.cpp:183-213 | likewise for logout |
| `MessageServices.UserLoginImpl.ProcessRegist` | service/loginManager/main/userLoginImpl.cpp:215-249 | likewise for register |
| `MessageServices.MessageDispatcher.ConnectAllHandleService` | service/messageDispatcher/messageDispatcher.cpp:31-53 | the service's fd is recorded unless one is there already, and not at all when the connection or epoll fails |
| `MessageServices.MessageDispatcher.GetServiceFdAndMessage` | service/messageDispatcher/messageDispatcher.cpp:101-157 | the operation is stamped and the service's fd chosen for the three known types, anything else is refused |
| `MessageServices.MessageReceiver.DealServiceResponse` | service/messageReceiver/messageReceiver.cpp:102-150 | writes "logout" to a positive `logoutFd` first, then the answer; a write that fails ends it |
| `MessageServices.MessageDispatcher.DealClientMessage` | service/messageDispatcher/messageDispatcher.cpp:55-99 | returns 0 exactly when the message is routed and every socket call succeeds |
| `MessageServices.MessageReceiver.DealClientMessage` | service/messageReceiver/messageReceiver.cpp:46-81 | returns 0 exactly when every socket call succeeds and the reply holds a `logoutFd`; a reply of the wrong type ends the process |
| `MessageServices.ServeRequest` | service/messageReceiver/messageReceiver.cpp:46-81 | one request through the three objects moves the tables and the sockets as the trip function says, for every pattern of socket failures |
| `Replies.StaysMatchedIff` | service/messageReceiver/messageReceiver.cpp:60-74 | all requests so far and the next one that is answered read their own replies if and only if no read of a reply that was written has failed |
| `Replies.BlocksIff` | service/messageDispatcher/messageDispatcher.cpp:75-84 | with nothing left unread, a request blocks its asker if and only if it is not answered |
| `Replies.SaysIff` | service/loginManager/main/userLoginImpl.cpp:20-94 | a message is answered if and only if its type is known, its operation is a number, no item has the wrong type and the call does not end the login manager |
| `Replies.UnreadIff` | service/messageReceiver/messageReceiver.cpp:60-74 | while replies are matched, the connection holds none exactly when none was missed |
| `Replies.SecondReadsFirst` | service/messageReceiver/messageReceiver.cpp:67-74 | the second request reads the reply that the first did not |
| `EventLoop.RunSound` | mylib/mylib_daemon/daemon.cpp:148-262 | over every run whose handler and re-arming calls succeed, an fd armed for writing owns one live buffer with its last read, an fd armed for reading owns none, no buffer is shared or freed twice, and each message is handled once before the next read of its fd; without dropping events nothing leaks |
| `EventLoop.EveryRunSound` | mylib/mylib_daemon/daemon.cpp:148-262 | the same from the start, where no handler ever gets a freed buffer |
| `EventLoop.EveryRunNames` | mylib/mylib_daemon/daemon.cpp:148-179 | over every run, as many clients are counted as were registered, no number goes to two fds, and exactly the registered fds have one |
| `EventLoop.RunNames` | mylib/mylib_daemon/daemon.cpp:148-179 | an fd gets the number of its first registration and keeps it, also after a close and a second accept |
| `EventLoop.FailedHandlerMisuses` | mylib/mylib_daemon/daemon.cpp:243-249 | a handler that fails leaves its fd armed, and the next write event hands it the freed buffer |
| `EventLoop.FailedReadLeaks` | mylib/mylib_daemon/daemon.cpp:189-197 | a failed read leaks its buffer |
| `EventLoop.StepSoundIff` | mylib/mylib_daemon/daemon.cpp:148-262 | an event keeps the loop sound if and only if the handler and the re-arming succeed |
| `EventLoop.StepLeakIff` | mylib/mylib_daemon/daemon.cpp:181-230 | an event leaks if and only if it is a failed read, a read that is not re-armed, or a connection that is not registered |
| `EventLoop.WriteSoundIff` | mylib/mylib_daemon/daemon.cpp:232-262 | a write event keeps the loop sound if and only if handler and re-arming succeed; otherwise the fd stays armed with freed memory |
| `EventLoop.ReadKeepsSound` | mylib/mylib_daemon/daemon.cpp:181-230 | a read that is re-armed keeps the loop sound |
| `EventLoop.ReadLosesMessage` | mylib/mylib_daemon/daemon.cpp:181-230 | a read whose re-arming fails loses its message |
| `EventLoop.Daemon.DealConnectRequest` | mylib/mylib_daemon/daemon.cpp:148-179 | a connection is armed, counted and named; one that cannot be registered stays open; a failed accept changes nothing |
| `EventLoop.Daemon.DealReadEvent` | mylib/mylib_daemon/daemon.cpp:181-230 | the epoll set, the heap and the client table after an error, an end of file and a message, and exactly when the terminating NUL lands past the buffer |
| `EventLoop.Daemon.DealWriteEvent` | mylib/mylib_daemon/daemon.cpp:232-262 | the buffer is handled and freed, and the fd re-armed only when both calls succeed; a buffer freed before is a misuse |
| `Handlers.DispatcherSoundIff` | service/messageDispatcher/messageDispatcher.cpp:55-135 | a client's message keeps the dispatcher's loop sound if and only if its type is one of the three, the login manager is connected, and every socket call and the re-arming succeed |
| `Handlers.UntypedMessageMisuses` | service/messageDispatcher/messageDispatcher.cpp:101-110 | a message without a type makes the next write event hand out a freed buffer |
| `Handlers.ReceiverSoundIff` | service/messageReceiver/messageReceiver.cpp:46-150 | the receiver's loop stays sound if and only if the reply holds a `logoutFd` and every socket call and the re-arming succeed |
| `Handlers.ManagerSoundIff` | service/loginManager/main/userLoginImpl.cpp:73-94 | the login manager's loop stays sound whatever it is sent, as long as its write and the re-arming succeed |
| `DeviceSync.CrashConsistent` | mylib/bazel-mylib/external/bazel_tools/tools/android/incremental_install.py:389-466 | after every command of every run, in every order of the parallel pushes and however the earlier runs ended, a manifest on the device lists exactly the files there |
| `DeviceSync.Converges` | mylib/bazel-mylib/external/bazel_tools/tools/android/incremental_install.py:379-466 | from whatever interrupted runs left, a run that reaches its end leaves exactly the files of its build, listed by its manifest |
| `DeviceSync.WipeConverges` | mylib/bazel-mylib/external/bazel_tools/tools/android/incremental_install.py:379-466 | a full installation, and one that finds no manifest, starts from any directory at all: when it gets to its end, the directory holds exactly the files of its build and the manifest, and every one of those files was pushed |
| `DeviceSync.WipeRunKeeps` | mylib/bazel-mylib/external/bazel_tools/tools/android/incremental_install.py:379-466 | what such a run keeps, and which files it has yet to push |
| `DeviceSync.OnlyChangesArePushed` | mylib/bazel-mylib/external/bazel_tools/tools/android/incremental_install.py:397-404 | once the manifest was read, no command pushes or removes a file listed with an unchanged checksum |
| `DeviceSync.FetchSpares` | mylib/bazel-mylib/external/bazel_tools/tools/android/incremental_install.py:379-387 | reading the manifest marks every unchanged file as one to leave alone |
| `DeviceSync.DoKeeps` | mylib/bazel-mylib/external/bazel_tools/tools/android/incremental_install.py:389-466 | every command keeps the protocol invariant, whatever it reports |
| `DeviceSync.RunKeeps` | mylib/bazel-mylib/external/bazel_tools/tools/android/incremental_install.py:567-631 | so does every run, wherever it is cut off |
| `DeviceSync.NothingToDo` | mylib/bazel-mylib/external/bazel_tools/tools/android/incremental_install.py:406-409 | when nothing is to be deleted or uploaded, the device already holds the build |
| `DeviceSync.InterruptedWipeIff` | mylib/bazel-mylib/external/bazel_tools/tools/android/incremental_install.py:389-394 | a removal of everything that is cut off leaves a consistent directory if and only if the manifest is gone, counts for nothing, or nothing else is gone |
| `DeviceSync.InterruptedCommitIff` | mylib/bazel-mylib/external/bazel_tools/tools/android/incremental_install.py:463-466 | with any text in the manifest's place after the pushes, the directory is consistent exactly when that text counts for nothing or lists the build |
| `Installer.TornDexManifestIff` | mylib/bazel-mylib/external/bazel_tools/tools/android/incremental_install.py:463-466 | with part of the dex manifest there, exactly when nothing or all of it arrived |
| `Installer.TornNativeManifestIff` | mylib/bazel-mylib/external/bazel_tools/tools/android/incremental_install.py:625-631 | with part of the native manifest there, exactly when all of it arrived |
| `Installer.TornChecksumIff` | mylib/bazel-mylib/external/bazel_tools/tools/android/incremental_install.py:506-512 | with any text in place of the resource checksum, exactly when it is the checksum |
| `Installer.TornDexManifestIsInconsistent` | mylib/bazel-mylib/external/bazel_tools/tools/android/incremental_install.py:463-466 | the first letter of a manifest that lists one dex |
| `Installer.EmptyNativeManifestIsInconsistent` | mylib/bazel-mylib/external/bazel_tools/tools/android/incremental_install.py:625-631 | the empty text in place of a manifest that lists one library |
| `DeviceSync.TornOutcome` | mylib/bazel-mylib/external/bazel_tools/tools/android/incremental_install.py:379-466 | a run that starts from any text in the manifest's place fails if it cannot be parsed, and otherwise ends with the build and exactly the files that neither that text nor the build names |
| `Installer.AfterTornDexManifest` | mylib/bazel-mylib/external/bazel_tools/tools/android/incremental_install.py:379-466 | so for every cut of a dex manifest, checksums being of one length |
| `Installer.AfterTornNativeManifest` | mylib/bazel-mylib/external/bazel_tools/tools/android/incremental_install.py:562-631 | and for every cut of a native manifest |
| `DexManifest.PrefixListsIff` | mylib/bazel-mylib/external/bazel_tools/tools/android/incremental_install.py:333-348 | a dex manifest cut off anywhere lists something else |
| `Installer.NativePrefixIff` | mylib/bazel-mylib/external/bazel_tools/tools/android/incremental_install.py:579-584 | so does a native manifest |
| `Installer.HalfWipedIsInconsistent` | mylib/bazel-mylib/external/bazel_tools/tools/android/incremental_install.py:389-394 | a directory with one dex, of which only the dex was wiped |
| `Installer.IncrementalInstall` | mylib/bazel-mylib/external/bazel_tools/tools/android/incremental_install.py:357-631 | the three uploads in turn leave every directory consistent, leave exactly the build when they succeed, and always succeed on a device that does not fail |
| `Installer.Upload` | mylib/bazel-mylib/external/bazel_tools/tools/android/incremental_install.py:375-466 | the commands of one upload are a run of the protocol; without failures it reaches the end if and only if the old manifest can be parsed; a full one that succeeds has pushed every file of the build and left nothing else, whatever was there |
| `Installer.FetchOrWipe` | mylib/bazel-mylib/external/bazel_tools/tools/android/incremental_install.py:379-394 | the old manifest is read, never in a full installation; otherwise the directory is empty afterwards and nothing counts as installed |
| `Installer.Bring` | mylib/bazel-mylib/external/bazel_tools/tools/android/incremental_install.py:586-631 | manifest removed, old files removed, new files pushed, manifest pushed, in that order and each only after the one before succeeded |
| `Installer.PushAll` | mylib/bazel-mylib/external/bazel_tools/tools/android/incremental_install.py:446-461 | the pushes land in any order; after a failure others may still land, and the call fails |
| `Installer.UploadOutcome` | mylib/bazel-mylib/external/bazel_tools/tools/android/incremental_install.py:463-466 | the directory is consistent however an upload went, and holds exactly the build when it got to the end |
| `Installer.NativeManifestIff` | mylib/bazel-mylib/external/bazel_tools/tools/android/incremental_install.py:579-584 | the native manifest is read back as written if and only if no library name contains a space or a newline |
| `Installer.OneLibraryText` | mylib/bazel-mylib/external/bazel_tools/tools/android/incremental_install.py:546-631 | the manifest of one library is its name, a space and its checksum |
| `Installer.SpaceInNameIsLost` | mylib/bazel-mylib/external/bazel_tools/tools/android/incremental_install.py:581-584 | a library called "a b" makes a line of three fields |
| `Installer.DexJobValid` | mylib/bazel-mylib/external/bazel_tools/tools/android/build_incremental_dexmanifest.py:71-124 | what the manifest builder writes for any non-empty list of dexes is a job the protocol accepts |
| `Installer.DexTextValid` | mylib/bazel-mylib/external/bazel_tools/tools/android/incremental_install.py:333-348 | so is any text that parses and does not install a file over the manifest |
| `Installer.NativeJobValid` | mylib/bazel-mylib/external/bazel_tools/tools/android/incremental_install.py:625-631 | so is the native manifest of libraries with plain names |
| `Installer.ResourceJobValid` | mylib/bazel-mylib/external/bazel_tools/tools/android/incremental_install.py:495-512 | so is the resource checksum |
| `DexManifest.ManifestRoundTripIff` | mylib/bazel-mylib/external/bazel_tools/tools/android/build_incremental_dexmanifest.py:71-124 | parsing the built manifest gives one entry per distinct checksum, at install paths numbered from 1, each with the input file, zip path ("-" for a dex that is not in a zip) and checksum of the first dex that had it, if and only if those names have no blank or newline, no input begins with white space and no checksum ends with it |
| `DexManifest.LinesRoundTrip` | mylib/bazel-mylib/external/bazel_tools/tools/android/incremental_install.py:333-348 | any such entries with distinct install paths are parsed back, and nothing else |
| `DexManifest.DistinctKeeps` | mylib/bazel-mylib/external/bazel_tools/tools/android/build_incremental_dexmanifest.py:84-88 | dropping repeated checksums keeps every checksum once and invents no dex |
| `DexManifest.DistinctIsFirst` | mylib/bazel-mylib/external/bazel_tools/tools/android/build_incremental_dexmanifest.py:84-88 | a dex is kept if and only if no dex before it has its checksum |
| `TextLines.DecimalReads` | mylib/bazel-mylib/external/bazel_tools/tools/android/build_incremental_dexmanifest.py:89-89 | the number in an install path is the decimal numeral of the counter |
| `DexManifest.ParseManifest` | mylib/bazel-mylib/external/bazel_tools/tools/android/incremental_install.py:333-348 | the parsing loop: later lines win, a line without four fields raises |
| `DexManifest.DexmanifestBuilder.AddDex` | mylib/bazel-mylib/external/bazel_tools/tools/android/build_incremental_dexmanifest.py:71-92 | a new checksum adds one line with input, zip path or "-", numbered name and checksum, a known one adds nothing; lines, counter and checksums stay those of the distinct dexes added so far |
| `DexManifest.DexmanifestBuilder.Manifest` | mylib/bazel-mylib/external/bazel_tools/tools/android/build_incremental_dexmanifest.py:123-124 | the text written is the lines of the distinct dexes |
| `Md5.DigestPieces` | mylib/bazel-mylib/external/bazel_tools/src/main/cpp/util/md5.cc:118-174 | for every way of cutting a message into `Update` calls, aligned or not, `Finish` gives the RFC 1321 digest of the concatenation |
| `Md5.Md5Digest.Update` | mylib/bazel-mylib/external/bazel_tools/src/main/cpp/util/md5.cc:118-152 | the bytes fed grow by the input; fewer than 64 stay buffered and the counter plus the buffer is the number fed modulo 2^64 |
| `Md5.Md5Digest.TopUp` | mylib/bazel-mylib/external/bazel_tools/src/main/cpp/util/md5.cc:124-134 | a partly filled buffer is completed and digested |
| `Md5.Md5Digest.WholeBlocks` | mylib/bazel-mylib/external/bazel_tools/src/main/cpp/util/md5.cc:136-147 | aligned and unaligned input digest the same whole blocks |
| `Md5.Md5Digest.Finish` | mylib/bazel-mylib/external/bazel_tools/src/main/cpp/util/md5.cc:154-174 | the digest is that of everything fed |
| `Md5.Md5Digest.LastBlocks` | mylib/bazel-mylib/external/bazel_tools/src/main/cpp/util/md5.cc:154-167 | what is digested last completes the padding of sections 3.1 and 3.2, within the 128-byte buffer |
| `Md5.Md5Digest.PadBuffer` | mylib/bazel-mylib/external/bazel_tools/src/main/cpp/util/md5.cc:160-165 | the buffer holds the pending bytes, the one bit, zeros and the two count words |
| `Md5.Md5Digest.Transform` | mylib/bazel-mylib/external/bazel_tools/src/main/cpp/util/md5.cc:234-337 | the state digests every block given and the two-word counter advances by their length |
| `Md5.Md5Digest.Blocks` | mylib/bazel-mylib/external/bazel_tools/src/main/cpp/util/md5.cc:239-331 | the multi-block loop is the block-by-block definition |
| `Md5.Md5Digest.OneBlock` | mylib/bazel-mylib/external/bazel_tools/src/main/cpp/util/md5.cc:249-330 | the 64 written-out operations are the four rounds of section 3.4 |
| `Md5.Md5Digest.Round1` | mylib/bazel-mylib/external/bazel_tools/src/main/cpp/util/md5.cc:255-271 | round 1 is operations 1 to 16 |
| `Md5.Md5Digest.Round2` | mylib/bazel-mylib/external/bazel_tools/src/main/cpp/util/md5.cc:273-289 | round 2 is operations 17 to 32 |
| `Md5.Md5Digest.Round3` | mylib/bazel-mylib/external/bazel_tools/src/main/cpp/util/md5.cc:291-307 | round 3 is operations 33 to 48 |
| `Md5.Md5Digest.Round4` | mylib/bazel-mylib/external/bazel_tools/src/main/cpp/util/md5.cc:309-325 | round 4 is operations 49 to 64 |
| `Md5Macros.FastFAgrees` | mylib/bazel-mylib/external/bazel_tools/src/main/cpp/util/md5.cc:200-201 | the rewritten F on words has, at every bit, what section 3.4 makes of the three bits there |
| `Md5Macros.FastGAgrees` | mylib/bazel-mylib/external/bazel_tools/src/main/cpp/util/md5.cc:202-202 | G written through F has the bits of the G of section 3.4 |
| `Md5Macros.FastHAgrees` | mylib/bazel-mylib/external/bazel_tools/src/main/cpp/util/md5.cc:203-203 | H has the bits of the H of section 3.4 |
| `Md5Macros.FastIAgrees` | mylib/bazel-mylib/external/bazel_tools/src/main/cpp/util/md5.cc:204-204 | I has the bits of the I of section 3.4 |
| `Md5Macros.RotateAgrees` | mylib/bazel-mylib/external/bazel_tools/src/main/cpp/util/md5.cc:207-207 | the two shifts and the or are x * 2^s modulo 2^32 plus x / 2^(32 - s), for every s |
| `Md5Macros.FastMixAgrees` | mylib/bazel-mylib/external/bazel_tools/src/main/cpp/util/md5.cc:211-233 | the sums carried over one by one, the rotation and the last sum are those of section 3.4 modulo 2^32 |
| `Md5Macros.WordsAreBytes` | mylib/bazel-mylib/external/bazel_tools/src/main/cpp/util/md5.cc:245-247 | word i of a block is its bytes 4i to 4i + 3, low-order byte first |
| `Md5Macros.FirstWords` | mylib/bazel-mylib/external/bazel_tools/src/main/cpp/util/md5.cc:112-115 | the first words are the bytes 01 23 45 67 89 ab cd ef fe dc ba 98 76 54 32 10 of section 3.3 |
| `Md5Macros.Combine` | mylib/bazel-mylib/external/bazel_tools/src/main/cpp/util/md5.cc:201-204 | an operator applied to two bitwise functions acts on each bit alone |
| `Md5.Advance` | mylib/bazel-mylib/external/bazel_tools/src/main/cpp/util/md5.cc:234-237 | the counter with its carry counts modulo 2^64 |
| `Md5.BitCount` | mylib/bazel-mylib/external/bazel_tools/src/main/cpp/util/md5.cc:162-162 | the values of the two shifted words add up to eight times the byte count modulo 2^64 |
| `Md5.LengthWords` | mylib/bazel-mylib/external/bazel_tools/src/main/cpp/util/md5.cc:160-162 | the two words shifted and joined on 32 bits are the bit count modulo 2^64, low word first |
| `Md5Macros.OrIsSum` | mylib/bazel-mylib/external/bazel_tools/src/main/cpp/util/md5.cc:162-162 | the or of words whose bits do not overlap is their sum |
| `Md5Spec.DigestedConcat` | mylib/bazel-mylib/external/bazel_tools/src/main/cpp/util/md5.cc:118-147 | blocks can be digested in any number of goes |
| `Md5.Md5Digest.Reset` | mylib/bazel-mylib/external/bazel_tools/src/main/cpp/util/md5.cc:108-116 | nothing has been fed |
| `Md5.Md5Digest.Copy` | mylib/bazel-mylib/external/bazel_tools/src/main/cpp/util/md5.cc:101-106 | a copy has been fed what the original was |
| `CommandLine.RoundTripIff` | mylib/bazel-mylib/external/bazel_tools/src/main/native/windows/process.cc:379-458 | the started program sees exactly the executable and the arguments if and only if the executable has no quote, no unquoted argument has a tab, no quoted argument has a character whose low byte is that of a quote or backslash, and nothing contains NUL |
| `CommandLine.LauncherCommandLine` | mylib/bazel-mylib/external/bazel_tools/src/tools/launcher/java_launcher.cc:413-419 | escaping every argument and building the line gives a buffer with that property, or the launcher ends because it is too long |
| `CommandLine.CreateCommandLine` | mylib/bazel-mylib/external/bazel_tools/src/tools/launcher/launcher.cc:188-206 | the buffer holds the assembled line up to its first NUL; it ends the launcher exactly when the line has 32768 characters or more |
| `CommandLine.TabDoesNotComeBack` | mylib/bazel-mylib/external/bazel_tools/src/main/native/windows/process.cc:383-391 | an argument that is a tab does not come back |
| `CommandLine.FakeQuoteDoesNotComeBack` | mylib/bazel-mylib/external/bazel_tools/src/main/native/windows/process.cc:399-404 | U+0122 next to a space does not come back |
| `CommandLine.JoinArguments` | mylib/bazel-mylib/external/bazel_tools/src/tools/launcher/launcher.cc:191-197 | the loop assembles the quoted executable and the words it is given, a space before each |
| `CommandLine.CopyText` | mylib/bazel-mylib/external/bazel_tools/src/tools/launcher/launcher.cc:202-205 | copying into the fixed buffer keeps the text up to its first NUL |
| `CommandLine.ReadBody` | mylib/bazel-mylib/external/bazel_tools/src/main/native/windows/process.cc:395-457 | the text between the quotes, backslash runs included, is read back as it was |
| `CommandLine.ReadSafe` | mylib/bazel-mylib/external/bazel_tools/src/main/native/windows/process.cc:379-458 | one escaped argument in front of a blank or the end reads back exactly |
| `CommandLine.ArgumentsOfTail` | mylib/bazel-mylib/external/bazel_tools/src/tools/launcher/launcher.cc:193-195 | any list of safe arguments comes back in order |
| `CommandLine.OnlySafeComesBack` | mylib/bazel-mylib/external/bazel_tools/src/main/native/windows/process.cc:379-458 | a list that comes back consists of safe arguments |
| `CommandLine.FakesAreLost` | mylib/bazel-mylib/external/bazel_tools/src/main/native/windows/process.cc:400-404 | a character mistaken for a quote or backslash is gone from the command line |
| `CommandLine.TabsThatSurvive` | mylib/bazel-mylib/external/bazel_tools/src/main/native/windows/process.cc:383-391 | the tabs that reach the program are exactly those of quoted arguments |
| `CommandLine.ArgumentsCount` | mylib/bazel-mylib/external/bazel_tools/src/tools/launcher/launcher.cc:193-195 | splitting never makes up a character |
| `Quoting.WindowsEscapeArg` | mylib/bazel-mylib/external/bazel_tools/src/main/native/windows/process.cc:379-458 | the loops give the escaped form: empty and plain arguments, and the quoted body |
| `Quoting.EscapeLoop` | mylib/bazel-mylib/external/bazel_tools/src/main/native/windows/process.cc:397-455 | copying stretches and rewriting special characters writes the escaped body |
| `Quoting.WriteSpecial` | mylib/bazel-mylib/external/bazel_tools/src/main/native/windows/process.cc:407-444 | a quote, or a run of backslashes with the quote that ends it, is written as the rules for special characters say |
| `Quoting.LowByteTruncates` | mylib/bazel-mylib/external/bazel_tools/src/main/native/windows/process.cc:399-399 | what the `char` variable holds is the character's code modulo 256 |
| `Quoting.HasSpaceOrQuote` | mylib/bazel-mylib/external/bazel_tools/src/main/native/windows/process.cc:383-391 | an argument is quoted exactly when it holds a space or a quote |
| `WindowsPath.NormalizeImpl` | mylib/bazel-mylib/external/bazel_tools/src/main/native/windows/file.cc:681-764 | the loop with its flags gives the normal form defined by the path's meaning |
| `WindowsPath.MeaningKeptIff` | mylib/bazel-mylib/external/bazel_tools/src/main/native/windows/file.cc:681-764 | normalising keeps where a path leads if and only if it does not begin with a separator and the first name a relative path leads to is not a drive |
| `WindowsPath.MeaningKept` | mylib/bazel-mylib/external/bazel_tools/src/main/native/windows/file.cc:681-764 | in particular for every path that neither begins with a separator nor names a drive after its first segment, and then it is idempotent |
| `WindowsMeaning.NormalizedLeads` | mylib/bazel-mylib/external/bazel_tools/src/main/native/windows/file.cc:681-764 | in every directory tree with drives, and from every place in it, the result leads where the path leads, unless the path begins with a separator or a drive comes out in front of a relative one |
| `WindowsMeaning.OtherwiseLeadsElsewhere` | mylib/bazel-mylib/external/bazel_tools/src/main/native/windows/file.cc:681-764 | in either of those two cases there is a tree in which it leads elsewhere |
| `WindowsMeaning.PlainLeads` | mylib/bazel-mylib/external/bazel_tools/src/main/native/windows/file.cc:681-764 | in particular it leads to the same place for every path that does not begin with a separator and names no drive after its first segment |
| `WindowsMeaning.MeaningLeads` | mylib/bazel-mylib/external/bazel_tools/src/main/native/windows/file.cc:681-764 | the meaning of a path, rooted or not, is where its segments lead one by one in every tree |
| `WindowsMeaning.LeadsToMeaning` | mylib/bazel-mylib/external/bazel_tools/src/main/native/windows/file.cc:681-764 | in the tree of places a path leads to its meaning, so paths that lead alike in every tree mean the same |
| `WindowsMeaning.UncPrefixIff` | mylib/bazel-mylib/external/bazel_tools/src/main/native/windows/file.h:32-39 | exactly three prefixes count |
| `WindowsMeaning.UncDropped` | mylib/bazel-mylib/external/bazel_tools/src/main/native/windows/file.cc:695-695 | none of the three comes out |
| `WindowsMeaning.DriveLetter` | mylib/bazel-mylib/external/bazel_tools/src/main/native/windows/file.cc:707-710 | a character and a colon are a drive exactly for the letters A to Z and a to z, and only then a backslash is added |
| `WindowsMeaning.NoForwardSlash` | mylib/bazel-mylib/external/bazel_tools/src/main/native/windows/file.cc:749-763 | every separator that comes out is a backslash |
| `WindowsPath.ResultCanonical` | mylib/bazel-mylib/external/bazel_tools/src/main/native/windows/file.cc:749-763 | every result has single backslashes, "." only alone, ".." only as a prefix, and a trailing backslash only after a bare drive |
| `WindowsPath.FixedIff` | mylib/bazel-mylib/external/bazel_tools/src/main/native/windows/file.cc:681-764 | the paths that normalising leaves alone are exactly the canonical ones other than a drive without backslash |
| `WindowsPath.IdempotentIff` | mylib/bazel-mylib/external/bazel_tools/src/main/native/windows/file.cc:681-764 | normalising twice is normalising once unless the path leads to a single name that is a drive |
| `WindowsPath.HiddenDrive` | mylib/bazel-mylib/external/bazel_tools/src/main/native/windows/file.cc:703-722 | for every drive d, "./" followed by d becomes d, which leads elsewhere and becomes absolute on the second pass |
| `WindowsPath.BackslashLosesMeaning` | mylib/bazel-mylib/external/bazel_tools/src/main/native/windows/file.cc:695-700 | "\a" leads elsewhere once normalised |
| `WindowsPath.SameMeaningSameForm` | mylib/bazel-mylib/external/bazel_tools/src/main/native/windows/file.cc:681-764 | paths that lead to the same place have the same normal form, up to "." for the empty path |
| `WindowsPath.KeptSegments` | mylib/bazel-mylib/external/bazel_tools/src/main/native/windows/file.cc:695-748 | the character loop keeps exactly the segments of the normal form |
| `WindowsPath.EndSegment` | mylib/bazel-mylib/external/bazel_tools/src/main/native/windows/file.cc:703-745 | each finished segment moves the kept list and the flags as the stack walk says |
| `WindowsPath.WriteSegments` | mylib/bazel-mylib/external/bazel_tools/src/main/native/windows/file.cc:749-759 | the kept segments joined by backslashes |
| `PosixPath.NormalizeAbsPath` | mylib/bazel-mylib/external/bazel_tools/src/main/cpp/util/path_posix.cc:101-135 | the loop gives the rendered stack walk, and nothing for a path that is not absolute |
| `PosixPath.NormalizedMeaning` | mylib/bazel-mylib/external/bazel_tools/src/main/cpp/util/path_posix.cc:101-135 | the result is absolute, without ".", ".." or empty segments, and leads where the path leads in every directory tree without links |
| `PosixPath.NormalFormIff` | mylib/bazel-mylib/external/bazel_tools/src/main/cpp/util/path_posix.cc:101-135 | two absolute paths normalise alike if and only if they lead to the same place and, below the root, agree on a trailing slash |
| `PosixPath.Idempotent` | mylib/bazel-mylib/external/bazel_tools/src/main/cpp/util/path_posix.cc:101-135 | normalising twice is normalising once |
| `PosixPath.JoinCongruence` | mylib/bazel-mylib/external/bazel_tools/src/main/cpp/util/path.cc:26-49 | for every absolute a and every b, normalising the join of the normalised a and b equals normalising the join of a and b |
| `PosixPath.JoinSeam` | mylib/bazel-mylib/external/bazel_tools/src/main/cpp/util/path.cc:26-49 | the joined path has exactly one slash at the seam |
| `PosixPath.PathLeads` | mylib/bazel-mylib/external/bazel_tools/src/main/cpp/util/path_posix.cc:141-156 | a path leads where it says from the root, or from the working directory if it is relative, and `GetRelative` goes on from there, in every directory tree |
| `PosixPath.SplitJoinIff` | mylib/bazel-mylib/external/bazel_tools/src/main/cpp/util/path_posix.cc:38-49 | the two halves join to the path if and only if no slash stands just before the last one |
| `PosixPath.DoubleSlashDoesNotJoin` | mylib/bazel-mylib/external/bazel_tools/src/main/cpp/util/path_posix.cc:38-49 | the halves of "//" join to something else |
| `PosixPath.NormalizedSplitJoin` | mylib/bazel-mylib/external/bazel_tools/src/main/cpp/util/path_posix.cc:38-49 | so for every normalised path |
| `PosixPath.LastSlash` | mylib/bazel-mylib/external/bazel_tools/src/main/cpp/util/path_posix.cc:39-39 | the position of the last slash, or -1 exactly when there is none |
| `PosixPath.RelativeIsJoin` | mylib/bazel-mylib/external/bazel_tools/src/main/cpp/util/path_posix.cc:154-156 | `GetRelative` is the path of the two texts joined before any normalisation |
| `PosixPath.RelativeInTwoSteps` | mylib/bazel-mylib/external/bazel_tools/src/main/cpp/util/path_posix.cc:154-156 | and two steps are the path of the three joined |
| `PosixPath.ParentOf` | mylib/bazel-mylib/external/bazel_tools/src/main/cpp/util/path_posix.cc:160-160 | `GetParent` drops the last name, keeps the root, and drops only the slash from a path with a trailing one |
| `PosixPath.ParentOfChild` | mylib/bazel-mylib/external/bazel_tools/src/main/cpp/util/path_posix.cc:154-160 | the parent of a child is the directory, without a trailing slash |
| `Pruner.ReachableFrom` | mylib/bazel-mylib/external/bazel_tools/tools/objc/j2objc_dead_code_pruner.py:125-142 | the level loop terminates and gives the least set that contains the entries and is closed under dependencies, for every dependency map, cycles included |
| `Pruner.Level` | mylib/bazel-mylib/external/bazel_tools/tools/objc/j2objc_dead_code_pruner.py:134-141 | one level adds only what must be reached, leaves every dependency reached or waiting, and either adds a file or ends |
| `Pruner.Levels` | mylib/bazel-mylib/external/bazel_tools/tools/objc/j2objc_dead_code_pruner.py:126-141 | all levels below one entry leave nothing waiting |
| `Pruner.LeastIsChained` | mylib/bazel-mylib/external/bazel_tools/tools/objc/j2objc_dead_code_pruner.py:125-142 | the least closed set holds exactly the files a chain of dependencies leads to from an entry |
| `DeadCode.BuildReachableFileSet` | mylib/bazel-mylib/external/bazel_tools/tools/objc/j2objc_dead_code_pruner.py:79-142 | an untranslated entry class is an error; otherwise the set is exactly the files needed by entry classes, duplicated base names and package-info files |
| `DeadCode.DuplicatedFiles` | mylib/bazel-mylib/external/bazel_tools/tools/objc/j2objc_dead_code_pruner.py:200-225 | exactly the files that share their base name with another file of the same archive |
| `DeadCode.GroupsAreDuplicated` | mylib/bazel-mylib/external/bazel_tools/tools/objc/j2objc_dead_code_pruner.py:212-223 | the groups of more than one hold exactly the duplicated files |
| `DeadCode.PruneSourceFiles` | mylib/bazel-mylib/external/bazel_tools/tools/objc/j2objc_dead_code_pruner.py:181-197 | entry files are copied, no copied file depends on an emptied one, and a file is copied if and only if a chain of dependencies leads to it from an entry |
| `DeadCode.PruneFiles` | mylib/bazel-mylib/external/bazel_tools/tools/objc/j2objc_dead_code_pruner.py:181-197 | a source is copied exactly when its name is reachable |
| `ArFile.ArchiveBackIff` | mylib/bazel-mylib/external/bazel_tools/tools/build_defs/pkg/archive.py:56-105 | reading the magic and the written members gives exactly those members in order and then None, if and only if every name has at most 15 bytes and no leading white space, the timestamp is below 10^12, owner and group below 10^6, the mode below 8^7 and the size below 10^10 (with one digit less below zero), and every size is the content's or asks for more where the archive ends |
| `ArHeader.HeaderPositions` | mylib/bazel-mylib/external/bazel_tools/tools/build_defs/pkg/make_deb.py:122-141 | every byte written for such a member: name and slash in bytes 0 to 15, timestamp from 16, owner from 28, group from 34, "0" and the octal mode from 40, size from 48, the terminator at 58, then the content and its padding, with blanks after each text |
| `ArHeader.FirstEntry` | mylib/bazel-mylib/external/bazel_tools/tools/build_defs/pkg/archive.py:68-80 | the reader takes the fields of an entry from those same places |
| `ArHeader.GarbageIgnored` | mylib/bazel-mylib/external/bazel_tools/tools/build_defs/pkg/archive.py:101-104 | up to 59 bytes after the members are ignored |
| `ArHeader.MembersThen` | mylib/bazel-mylib/external/bazel_tools/tools/build_defs/pkg/archive.py:96-105 | members are read one after the other, whatever follows them |
| `ArHeader.MagicText` | mylib/bazel-mylib/external/bazel_tools/tools/build_defs/pkg/archive.py:82-82 | the magic is the text "!<arch>" and a newline |
| `ArFile.StandardFits` | mylib/bazel-mylib/external/bazel_tools/tools/build_defs/pkg/make_deb.py:122-130 | a member fits the columns if and only if it keeps the bounds written out as numbers |
| `ArArchive.NumberFitsIff` | mylib/bazel-mylib/external/bazel_tools/tools/build_defs/pkg/make_deb.py:124-128 | a number fits its column if and only if it lies between two powers of its base |
| `Digits.DigitsNumeral` | mylib/bazel-mylib/external/bazel_tools/tools/build_defs/pkg/make_deb.py:124-128 | the digits written are the number's usual numeral in positional notation |
| `ArFile.SixteenByteNameIsLost` | mylib/bazel-mylib/external/bazel_tools/tools/build_defs/pkg/make_deb.py:123-123 | an archive of one member with a 16-byte name is not read back |
| `ArFile.ContentBackIff` | mylib/bazel-mylib/external/bazel_tools/tools/build_defs/pkg/archive.py:76-80 | the content comes back exactly when the size is its length, or asks for more with nothing following |
| `ArFile.MemberBack` | mylib/bazel-mylib/external/bazel_tools/tools/build_defs/pkg/make_deb.py:115-141 | the columns of a fitting member are read back, whatever its size says |
| `ArFile.MemberLost` | mylib/bazel-mylib/external/bazel_tools/tools/build_defs/pkg/make_deb.py:122-130 | a member that does not fit is read as another or raises |
| `ArFile.MemberLength` | mylib/bazel-mylib/external/bazel_tools/tools/build_defs/pkg/archive.py:101-104 | no written member is shorter than the 60 bytes of the end test |
| `ArFile.AddArFileEntry` | mylib/bazel-mylib/external/bazel_tools/tools/build_defs/pkg/make_deb.py:115-141 | appends the member's bytes, whatever its numbers and however its length is given, or nothing when the name is not ASCII |
| `ArFile.WriteHeader` | mylib/bazel-mylib/external/bazel_tools/tools/build_defs/pkg/make_deb.py:122-132 | appends the seven columns |
| `ArFile.CopyContent` | mylib/bazel-mylib/external/bazel_tools/tools/build_defs/pkg/make_deb.py:133-139 | the chunk loop appends the whole content and counts it |
| `ArFile.WriteArchive` | mylib/bazel-mylib/external/bazel_tools/tools/build_defs/pkg/make_deb.py:219-237 | the magic and the members one after the other make an archive that reads back exactly when all keep the bounds; it raises exactly when some name is not ASCII |
| `ArFile.ListArchive` | mylib/bazel-mylib/external/bazel_tools/tools/build_defs/pkg/archive.py:33-48 | the usual loop over `next` lists what the reading function says, or fails where it does |
| `ArFile.SimpleArFile.NextEntry` | mylib/bazel-mylib/external/bazel_tools/tools/build_defs/pkg/archive.py:96-105 | aligns, stops when fewer than 60 bytes are left, and otherwise reads one entry |
| `ArFile.SimpleArFile.ReadEntryHere` | mylib/bazel-mylib/external/bazel_tools/tools/build_defs/pkg/archive.py:68-80 | reads the columns, the terminator and the data, or raises |
| `ArFile.SimpleArFile.Enter` | mylib/bazel-mylib/external/bazel_tools/tools/build_defs/pkg/archive.py:87-91 | accepts exactly the files that start with the magic |
| `ArArchive.NumberColumn` | mylib/bazel-mylib/external/bazel_tools/tools/build_defs/pkg/make_deb.py:124-128 | a number is read back from its column if and only if its text fits, octal mode included |
| `ArArchive.NumbersBack` | mylib/bazel-mylib/external/bazel_tools/tools/build_defs/pkg/archive.py:72-76 | a row of numbers is read back if and only if all fit |
| `ArFile.NameBack` | mylib/bazel-mylib/external/bazel_tools/tools/build_defs/pkg/archive.py:69-71 | a fitting name is read back without its slash and padding |
| `ArFile.NameLost` | mylib/bazel-mylib/external/bazel_tools/tools/build_defs/pkg/archive.py:69-72 | another name comes back changed, or leaves a slash where a number must be |
| `Numbers.SafeStrto32` | mylib/bazel-mylib/external/bazel_tools/src/main/cpp/util/numbers.cc:177-189 | the answer and the value are those of the specification, and no step leaves the 32-bit range |
| `Numbers.SucceedsIff` | mylib/bazel-mylib/external/bazel_tools/src/main/cpp/util/numbers.cc:177-189 | it succeeds with v if and only if the text up to a NUL is white space, an optional sign and a non-empty run of digits of value v within the 32-bit range |
| `Numbers.TrailingSpaceFails` | mylib/bazel-mylib/external/bazel_tools/src/main/cpp/util/numbers.cc:66-68 | "5 " is refused |
| `Numbers.NumeralReads` | mylib/bazel-mylib/external/bazel_tools/src/main/cpp/util/numbers.cc:110-175 | a numeral out of range fails with the nearest value in range |
| `Numbers.PrintedReads` | mylib/bazel-mylib/external/bazel_tools/src/main/cpp/util/numbers.cc:177-189 | every integer in range is read back from its decimal text, and any other clamps |
| `Numbers.SafeParsePositiveInt` | mylib/bazel-mylib/external/bazel_tools/src/main/cpp/util/numbers.cc:110-138 | the digit loop gives the value, the clamped value, or what preceded a character that is no digit |
| `Numbers.SafeParseNegativeInt` | mylib/bazel-mylib/external/bazel_tools/src/main/cpp/util/numbers.cc:140-175 | likewise downwards, down to the most negative integer |
| `Numbers.SafeParseSign` | mylib/bazel-mylib/external/bazel_tools/src/main/cpp/util/numbers.cc:57-84 | refuses exactly what has only white space after the sign; otherwise hands back the sign and what follows it, white space at the end included |

## Left out

- Sockets, `epoll`, `fork`, signals and the MySQL client: fds, readiness, statements and socket calls are abstract, and failure is an outcome of each. Partial reads and writes are not modelled.
- SQL text, string collation and escaping: a statement selects by equal strings.
- `LoginService.SqlApi.Select`: the rows that `mysql_fetch_row` points to are modelled as values, although they outlive `mysql_free_result` in the source.
- `MessageServices.ServeRequest`: lets each request read its own reply; `Replies.StaysMatchedIff` says when it does, and `Replies.BlocksIff` when its asker waits for good.
- cJSON text syntax: messages are key/value records in which lookup finds the first item with a key. Case-insensitive key lookup, the conversion of JSON numbers to `int` and the limits on message length outside `EventLoop` are not modelled.
- The client programs apart from the messages they send, logging, the daemon start-up, and the older copies of the login code under service/messageReceiver.
- `Adb` process handling, device timestamps, `SplitIncrementalInstall`, ABI selection, zip extraction and SHA-256: a checksum stands for a file's contents.
- `DeviceSync.CrashConsistent`: a push of the manifest and a removal of the whole directory are one act each, while the push of any other file may leave anything; `InterruptedCommitIff` and `InterruptedWipeIff` say when stopping inside them is harmless.
- A new dex manifest that does not parse: the upload raises after the wipe, before anything else changes.
- `Md5Digest::String`, hexadecimal output and big-endian hosts. `Md5.Md5Digest.Update` takes inputs below 2^32 bytes, as the source's length parameter does.
- The rest of process.cc, file.cc, launcher.cc and java_launcher.cc: operating-system calls. Windows paths are strings of Unicode characters, not code units.
- `Path::Canonicalize`, environment variables in paths, and `GetCwd`, which is a parameter.
- The text of dependency, header and archive mapping files and the pruning of object archives; `os.path` functions are parameters.
- `ArFile.AddArFileEntry`: takes names as byte strings.
- `ArFile.SimpleArFile.ReadEntryHere`: reads names as bytes, so the exception for a name that is not UTF-8 and the Unicode white space that `strip` removes are not modelled.
- `TarFileWriter`, `CreateDebControl` and the extension chosen for the data member.
- `strto32`, which wraps the C library.
