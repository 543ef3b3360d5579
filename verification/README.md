# Dot1xCP in Dafny

Dot1xCP is a Windows credential provider. Its logon tile starts a broker process, reads JSON messages
from it over a named pipe and, when the broker reports success, hands LogonUI a packed MSV logon.
This project models the provider's logic and proves what it keeps, for every input and every run.

| Part | Files |
|---|---|
| Broker messages | `Unicode`, `Bits`, `JsonString`, `JsonGrammar`, `JsonObject`, `JsonExactness`, `JsonUtf8`, `JsonNames`, `JsonParser`, `JsonEscape`, `Messages` |
| Logon blob | `Packing`, `BlobDecoding`, `EndToEnd` |
| Pipe reading | `Transport`, `TransportResults` |
| Session, calls one after another | `Session`, `SessionInvariant`, `Provider`, `SessionRuns`, `SessionFates`, `Effects`, `Throttle`, `BrokerToLogon`, `PipeRuns` |
| Session, calls overlapping | `FreeThreaded` |
| Refresh timer | `Refresh`, `RefreshFates`, `RefreshPairs` |
| Session and timer together | `Joint`, `JointRuns` |
| Package cache, child environment | `PkgCache`, `EnvBlock` |

How the pieces are built:

- Code that the source writes as loops over buffers and strings is a method with a loop, proved equal
  to a recursive function; the theorems are about that function. The JSON parser has a third level: a
  grammar, in `JsonGrammar` and `JsonObject`, that mentions no scanner.
- The provider's globals are the class `Provider.Globals`. Each of its methods goes through the
  source's statements and is proved to arrive at the state a function of `Session` gives; the theorems
  about runs are by induction over any sequence of LogonUI calls, each with any `Env`: one field for
  each way an outside call can turn out. Handles are numbers the system hands out once, and closing
  one, waiting on one or terminating its process demands that it is open.
- Texts, numbers and branches are stated a second time without the constants and functions that the code
  shares with its specification: key names and marks as characters (`JsonNames`), hex digits and escapes
  (`JsonString`, `JsonEscape`), the blob byte by byte (`BlobDecoding`), the result of every read by the
  attempt that ends it (`TransportResults`), and every field a LogonUI call leaves (`Effects`).
- What runs concurrently (the refresh timer, overlapping LogonUI calls, the package cache) is a
  transition system with any number of threads, one step for each interlocked operation or each
  statement under a lock. `Joint` runs the session and the timer as one such system.

## Results

- **Parsing is exact.** A line is accepted just when it is a text of the grammar whose last `type` is
  not empty, and its fields are then the values of the last members of each name. The grammar allows
  a trailing comma after a member and raw control bytes in strings, as the code does.
- **A password arrives.** For every well-formed user name (not empty) and password of up to 32766
  UTF-16 units, a success line in any layout that spells them, as the installer's `JsonEscape` does for
  every such text, once read from the pipe on any run, ends in a blob whose fields read back as exactly
  ".", the name and the password. From 32767 units on a field is not read back
  (`BlobDecoding.FaithfulIff`).
- **A session is all there or all gone**, no handle leaks or is closed twice, each session gives at
  most one final answer, and a credential is returned exactly under the condition stated in
  `SessionRuns.CredentialIff`, after the session is gone.
- **Submissions are spaced.** On any run, in T ms logon tiles submit by the window at most 1 + T/2500
  times, and once more for each call that resets the window and each submission on tick 0.
- **Messages in order.** From the call that starts a session to the one that ends it, the messages
  answered come out of what its broker writes, in order, and all but the last only report progress.
- **Refreshes.** The slot has one owner, and contexts and references balance. A request wakes LogonUI
  exactly if the slot is free when it comes for it, an events object is registered, memory and a timer
  are there, and no generation increment comes before its comparison; one that finds the slot taken
  has an exactly stated fate. After a session end a refresh requested before it calls LogonUI exactly
  if its comparison had succeeded before the end and its call was still to come.

Section 14 of the repository's README.md asks why a broker is sometimes started again after a success.
Its three points are answered:

- A refresh left over from before the success does call LogonUI afterwards, but only in one place:
  when its timer's callback had compared generations before the session ended and had not yet made
  its call. Nothing is held between the two statements (src/core/Provider.cpp:59-60).
  `JointRuns.CallsAfterEndIff` states this as an equivalence, and `JointRuns.CallAfterSuccess` is a run
  in which the call comes after AUTH_SUCCESS has been answered.
- The process and all handles are closed (`SessionRuns.HandlesConserved`, `SessionRuns.CredentialIff`).
- Selecting the tile again, as LogonUI may do after such a call, always submits at once and starts
  another broker (`SessionFates.ReselectionRelaunches`).

Places where the code does less than its documentation or its shape suggests, each with a proof:

- README.md:138-140 says the session is kept after an authentication failure. The code ends it:
  AUTH_FAIL closes the pipe and the process like every final message (`SessionFates.AuthFailEndsSession`,
  `SessionFates.StaysLiveIff`).
- README.md:147-148 promises recovery after the broker is lost. The code asks for a refresh, but if the
  slot is taken when that request comes for it, the request is dropped, and LogonUI is called
  afterwards exactly if the slot's owner had already compared and was about to call
  (`JointRuns.RecoveryFate`); an owner whose comparison is still ahead is stale, and the recovery is
  lost with it (`JointRuns.LostRecovery`). The auto-submit on the next selection is kept
  (`SessionFates.ReadFailureRecovers`).
- A read that completes just as its wait times out is never collected: a short message is lost whole,
  and of a longer one the next slice delivers the rest as if it were a message
  (`Transport.LateReadLosesMessage`, `Transport.TimeoutInsideMessage`, and exactly what is lost in
  `Transport.DeliversAllButLost`).
- With calls one after another the force mark never decides a selection: every path that sets it has
  cleared the tick, which opens the window anyway (`Throttle.ForceNeverDecides`).
- An auto-submit on tick 0 is forgotten at once (`Throttle.TickZeroIsForgotten`).
- A package id of 2^31 or more defeats the cache (`PkgCache.AgreementIff`).
- With overlapping calls SetUsageScenario can clear the active flag of a session just connected
  (`FreeThreaded.ConnectedYetInactive`).

## Model

| member | source | states |
|---|---|---|
| `Bits.OrJoins` | src/broker/ProviderJson.cpp:36-101 | an or of a shifted value with bits below the shift is their sum |
| `Bits.OrBits` | src/broker/ProviderJson.cpp:36-101 | a bit of an or is set exactly if it is set in either word |
| `Bits.AndBits` | src/broker/ProviderJson.cpp:36-53 | a bit of an and is set exactly if it is set in both words |
| `Bits.AndMasks` | src/broker/ProviderJson.cpp:36-53 | an and with a mask of low bits is the remainder |
| `Unicode.DecodeEncoded` | src/broker/ProviderJson.cpp:36-53 | what the emitter writes is valid UTF-8 (RFC 3629 section 4) and decodes to the code points given |
| `Unicode.EncodeDecoded` | src/broker/ProviderJson.cpp:36-53 | every valid UTF-8 text is what the emitter writes for its code points |
| `Unicode.ValidCut` | src/broker/ProviderJson.cpp:128-157 | text cut where no continuation byte follows, so before any ASCII delimiter, leaves two valid texts |
| `Unicode.WidenUtf8` | src/common/ProviderUtil.cpp:80-92 | widening the UTF-8 of well-formed UTF-16 gives that UTF-16 back |
| `Unicode.WidenNoLonger` | src/common/ProviderUtil.cpp:80-92 | widening never gives more units than there were bytes |
| `Unicode.PairDigits` | src/broker/ProviderJson.cpp:99-106 | a surrogate pair stands for 65536 and its twenty low bits, and is what that number is written as |
| `Unicode.RfcExamples` | src/broker/ProviderJson.cpp:36-53 | the worked examples of RFC 3629 section 7 and one of RFC 2781 are written and read as there |
| `JsonString.ParseHex4` | src/broker/ProviderJson.cpp:55-65 | accepts for each number just its four hex digits, each in lower or upper case, and gives that number |
| `JsonString.HexSpellings` | src/broker/ProviderJson.cpp:28-65 | the scanner reads a number exactly where its four digits stand, each of 0-9a-f or 0-9A-F, mixed cases too |
| `JsonString.EmittedIsUtf8` | src/broker/ProviderJson.cpp:36-53 | for every scalar value the shifts, masks and ors give the RFC 3629 form |
| `JsonString.AppendUtf8` | src/broker/ProviderJson.cpp:36-53 | appends what the bit operations give, for any word |
| `JsonString.ReadUnicodeEscape` | src/broker/ProviderJson.cpp:90-112 | one u-escape, single or paired, in its two accepted forms and its failures |
| `JsonString.UnescapeJsonString` | src/broker/ProviderJson.cpp:67-118 | the loop succeeds just when the recursive meaning of the token does, with its bytes |
| `JsonString.ParseJsonQuotedToken` | src/broker/ProviderJson.cpp:128-157 | the scan cuts the token up to the first quote no backslash escapes, and stops after it |
| `JsonGrammar.StringExactness` | src/broker/ProviderJson.cpp:67-157 | scanning and unescaping accept exactly the quoted strings of the grammar, each with its meaning |
| `JsonGrammar.TokenNeverDangles` | src/broker/ProviderJson.cpp:79 | the unescaper's failure on a final backslash cannot arise from a cut token |
| `JsonParser.Trim` | src/broker/ProviderJson.cpp:20-26 | the loops cut exactly the white space at both ends |
| `JsonParser.SkipWs` | src/broker/ProviderJson.cpp:120-126 | the loop stops at the first byte that is no white space |
| `JsonParser.ReadMember` | src/broker/ProviderJson.cpp:175-222 | one key, colon and value with the white space around them, or a failure |
| `JsonParser.Msg.Store` | src/broker/ProviderJson.cpp:205-218 | a member named type, sam, password or reason sets the field of that name and no other; any other name sets none |
| `JsonParser.ParseFlatBrokerMessage` | src/broker/ProviderJson.cpp:159-238 | the member loop computes the recursive parse from the fields found so far |
| `JsonParser.ParseJsonLine` | src/broker/ProviderJson.cpp:240-256 | accepts just the lines that can be written with a non-empty last type, and then gives under each of the four names the last value; leaves all four fields empty otherwise |
| `JsonExactness.LineExactness` | src/broker/ProviderJson.cpp:159-256 | a line parses to `f` exactly when it is a text of the grammar, `f` holds the last value of each key, and the type is not empty |
| `JsonExactness.LineOfText` | src/broker/ProviderJson.cpp:159-256 | every text of the grammar with a non-empty type is accepted |
| `JsonExactness.TextOfLine` | src/broker/ProviderJson.cpp:159-256 | every accepted line has a grammar tree with that text and those fields |
| `JsonExactness.AssignAllIsFieldsOf` | src/broker/ProviderJson.cpp:205-218 | storing members one by one leaves the last value of each key |
| `JsonNames.LineByName` | src/broker/ProviderJson.cpp:205-238 | a line is accepted just when it can be written with a non-empty last type, and its fields are the last values under the names type, sam, password and reason |
| `JsonNames.ThreeMembers` | src/broker/ProviderJson.cpp:205-218 | three members named type, sam and password, in any order, spelling and layout, give their values to the fields of those names |
| `JsonNames.OtherMembers` | src/broker/ProviderJson.cpp:205-218 | a member under any other name, wherever it stands, changes nothing |
| `JsonNames.TrimmedBetween` | src/broker/ProviderJson.cpp:20-26 | trimming gives exactly what lies between the white space at the two ends |
| `JsonNames.LineWritten` | src/broker/ProviderJson.cpp:159-238 | a line is written with braces, commas, colons and quotes as JSON has them |
| `JsonNames.ElementWritten` | src/broker/ProviderJson.cpp:74-113 | which bytes stand for themselves, which letters are short escapes, and how all escapes are written |
| `JsonNames.ShortMeanings` | src/broker/ProviderJson.cpp:80-89 | the byte each of the eight short escapes unescapes to |
| `JsonUtf8.TokenValid` | src/broker/ProviderJson.cpp:128-157 | a token cut from valid UTF-8 is valid UTF-8 |
| `JsonUtf8.UnescapeValid` | src/broker/ProviderJson.cpp:67-118 | unescaping valid UTF-8 gives valid UTF-8 |
| `JsonUtf8.LineValid` | src/broker/ProviderJson.cpp:159-256 | every field of a valid UTF-8 line is valid UTF-8 |
| `JsonUtf8.UnescapeNoLonger` | src/broker/ProviderJson.cpp:67-118 | unescaping never lengthens |
| `JsonUtf8.LineFits` | src/broker/ProviderJson.cpp:159-256 | no field is longer than the line |
| `JsonEscape.JsonEscape` | Dot1xCP_Setup.iss:282-310 | the loop computes the escaped text of every unit in order |
| `JsonEscape.HexRoundTrip` | Dot1xCP_Setup.iss:262-280 | the four digits printed for a unit are its hex digits, and the parser reads them as that unit |
| `JsonEscape.EscapeSpells` | Dot1xCP_Setup.iss:282-310 | a unit is printed as its short escape, as itself from 32 to 126, or else as backslash u and its four upper-case digits |
| `JsonEscape.UnescapeAnySpelling` | src/broker/ProviderJson.cpp:67-118 | for every text, printed with each hex digit in either case, unescaping gives its UTF-8 if no surrogate is unpaired, and otherwise fails on the unpaired surrogate |
| `JsonEscape.TokenOfSpelled` | src/broker/ProviderJson.cpp:128-157 | any such spelling between quotes is cut as exactly that text, and the scan stops after the closing quote |
| `JsonEscape.UnescapeEscape` | Dot1xCP_Setup.iss:282-310 | in particular what the installer prints: unescaping gives the UTF-8 of the text, or fails on an unpaired surrogate |
| `JsonEscape.TokenOfEscaped` | Dot1xCP_Setup.iss:282-310 | escaped text between quotes, whatever follows, is cut as exactly that text and the scan stops after the closing quote |
| `Packing.CopyString` | src/auth/Serialization.cpp:172-174 | writes the units and a NUL at the cursor and nothing else |
| `Packing.FillUS` | src/auth/Serialization.cpp:26-31 | writes the two 16-bit counts and the offset of one string field and nothing else |
| `Packing.PackMsv` | src/auth/Serialization.cpp:139-186 | succeeds just with a user, a package and memory, and leaves exactly the blob laid out by `MsvBlob`, its size cast to 32 bits, and the package |
| `Packing.PackAutoEx` | src/auth/Serialization.cpp:214-230 | the MSV logon blob for the empty and the "." domain, nothing without a user, package or memory, and what the other packers give elsewhere |
| `Packing.PackedExactly` | src/auth/Serialization.cpp:139-149 | a credential for the local machine is packed exactly with a user, a package and memory outside Unlock, and when nothing is packed |
| `BlobDecoding.ReadPacked` | src/auth/Serialization.cpp:152-183 | a packed field reads as its string cut to the length modulo 2^15 |
| `BlobDecoding.FaithfulIff` | src/auth/Serialization.cpp:153-161 | a field reads back as its string, with room for the NUL, exactly up to 32766 units |
| `BlobDecoding.BlobFaithful` | src/auth/Serialization.cpp:163-186 | read as integers the blob has message type 2, and each of its three fields reads back exactly up to that length |
| `BlobDecoding.BlobBytes` | src/auth/Serialization.cpp:152-185 | every byte of the blob: type 2, the fields at 8, 24 and 40 with their counts and offsets low byte first, and from 56 on the texts with their NULs, one after the other |
| `EndToEnd.PrintedValueOk` | Dot1xCP_Setup.iss:282-310 | a value printed by `JsonEscape`, with any white space around it, is a member value of the grammar with the UTF-8 of the text |
| `EndToEnd.PrintedLine` | src/broker/ProviderJson.cpp:205-218 | the line {"type":"AUTH_SUCCESS","sam":"...","password":"..."}, spelled with each hex digit in either case, parses to that name and that password in their fields |
| `EndToEnd.PrintedLineCarries` | Dot1xCP_Setup.iss:282-310 | the plain line with both values printed, character for character, is a success line that carries them |
| `EndToEnd.CredentialFidelity` | src/broker/ProviderSerialization.cpp:120-155 | parsed from a success line in any layout, widened and packed, a name and a password are read back from the blob unchanged |
| `EndToEnd.CappedLineFits` | src/broker/ProviderSerialization.cpp:120-155 | for any valid UTF-8 line within the cap the size cast loses nothing and each field is faithful exactly up to 32766 units |
| `BrokerToLogon.LogonFidelity` | src/broker/ProviderSerialization.cpp:280-369 | on every run, if the first message left in the pipe is a success line in any layout, a successful read delivers exactly that name and password to LogonUI with the session gone |
| `BrokerToLogon.NextInQueue` | src/broker/ProviderPipeTransport.cpp:294-320 | with the rest of a begun message always there and no late read, the first message left is the next in the pipe |
| `BrokerToLogon.EveryReadAnswered` | src/broker/ProviderSerialization.cpp:280-324 | on every run, whatever the pipe does, a read ends in a message, a kept session or a recovery; the statement at line 317 is never reached |
| `BrokerToLogon.BrokenPipeRecovers` | src/broker/ProviderSerialization.cpp:296-308 | on every run a slice that meets a broken pipe makes the call end the session, force the next submission and ask for a refresh in 50 ms |
| `PipeRuns.AnsweredInOrder` | src/broker/ProviderSerialization.cpp:277-369 | the calls of one session, each reading on where the one before stopped, deliver the unread messages in order, none twice, with losses only to timed-out reads, and all but the last only report progress |
| `PipeRuns.NothingSkipped` | src/broker/ProviderSerialization.cpp:277-369 | without late or interrupted reads, what a session has delivered and what is still in its pipe are together what was in it |
| `PipeRuns.WholeSession` | src/broker/ProviderSerialization.cpp:224-369 | the same from the call that starts a session: the messages answered come in order out of what its broker writes |
| `Transport.MessagePipe.ReadFile` | src/broker/ProviderPipeTransport.cpp:175-212 | a read takes at most 8192 bytes of the head message into the buffer and leaves the rest |
| `Transport.ReadPipeMessageWithTimeout` | src/broker/ProviderPipeTransport.cpp:155-292 | the loop computes `ReadMessage`; the chunk buffer is all zeros at every loop head and on every return, although a failed or cancelled read may leave anything in it |
| `Transport.ReadDelivers` | src/broker/ProviderPipeTransport.cpp:155-292 | whatever the attempts do: Ok delivers exactly the rest of the head message, neither empty nor over 262144 bytes; a timeout or a lost broker takes what it hands over and at most one chunk read late |
| `TransportResults.ResultExactly` | src/broker/ProviderPipeTransport.cpp:155-292 | a read times out exactly if the attempt that ends it waits in vain or there is nothing to read, reports the broker gone exactly if that attempt finds the pipe broken or the process gone, succeeds exactly on a whole message of 1 to 262144 bytes, and else fails |
| `TransportResults.OutputExactly` | src/broker/ProviderPipeTransport.cpp:155-292 | what each read hands over and leaves: the whole message, or the 8192-byte chunks before the attempt that ended it, less one chunk that completed late |
| `Transport.MessageReassembled` | src/broker/ProviderPipeTransport.cpp:155-292 | with the rest of a begun message always there, a read delivers the next message whole, fails empty-handed on an empty or over-long one, or delivers nothing and takes at most a late chunk |
| `Transport.ReadPipeMessageUntilDone` | src/broker/ProviderPipeTransport.cpp:294-320 | the slice loop computes `UntilDone`, or has not returned yet |
| `TransportResults.SlicedExactly` | src/broker/ProviderPipeTransport.cpp:294-320 | the sliced read returns with the first slice that does not go on; Timeout exactly if that came to nothing with no process to watch, or a live one and the time up; BrokerExited exactly if it met a broken pipe, a process gone, or came to nothing over a dead one |
| `TransportResults.BrokenIsReported` | src/broker/ProviderPipeTransport.cpp:214-219 | a broken pipe in any slice reached ends the sliced read at once with BrokerExited, never as a timeout |
| `Transport.SliceBound` | src/broker/ProviderPipeTransport.cpp:294-320 | with a finite limit the loop ends after one slice or at most ceil(limit / slice), and reports a timeout of a live broker only between the limit and the limit plus the last slice |
| `Transport.FiveSlices` | src/broker/ProviderSerialization.cpp:280 | the limits 250 and 1200 allow five slices |
| `Transport.DeliversAllButLost` | src/broker/ProviderPipeTransport.cpp:294-320 | a successful sliced read delivers the first unread message left when exactly what timed-out slices took, whole messages or the start of one, is gone; what is behind it stays |
| `Transport.WholeMessages` | src/broker/ProviderPipeTransport.cpp:294-320 | with the rest always there and no late read it delivers the next message whole, is Ok just when the output is not empty, and leaves the pipe alone on a timeout |
| `Transport.PunctualLosesNothing` | src/broker/ProviderPipeTransport.cpp:294-320 | and then nothing is lost |
| `Transport.LateReadLosesMessage` | src/broker/ProviderPipeTransport.cpp:280-284 | a run in which a message read late is lost and the one behind it delivered |
| `Transport.TimeoutInsideMessage` | src/broker/ProviderPipeTransport.cpp:280-284 | a run, with the rest of the message always ready, in which the second slice delivers it without its first 8192 bytes |
| `Provider.Globals.constructor` | src/core/Provider.cpp:6-14 | the globals start without a session, at generation 1 |
| `Provider.Globals.CloseHandle` | src/broker/ProviderBrokerSession.cpp:25-61 | closes an open handle and counts it |
| `Provider.Globals.SetBrokerSessionActive` | src/core/Provider.cpp:76-84 | switching off also clears awaiting and the tick and moves the generation on |
| `Provider.Globals.SetBrokerAwaitingFinal` | src/core/Provider.cpp:91-97 | sets awaiting; setting it clears the tick |
| `Provider.Globals.ConsumeForceNextAutoSubmit` | src/core/Provider.cpp:109-112 | takes the force mark exactly if it is set |
| `Provider.Globals.TryAcquireAutoSubmitWindow` | src/core/Provider.cpp:34-44 | grants and stores the tick exactly on tick 0 or after the interval modulo 2^32 |
| `Provider.Globals.WaitAndCloseBrokerProcess` | src/broker/ProviderBrokerSession.cpp:25-53 | waits on a process just if there is one, terminates it just if that wait times out, closes exactly the handles it is given that are there, and leaves the caller none |
| `Provider.Globals.ClosePipeHandle` | src/broker/ProviderBrokerSession.cpp:55-61 | closes the pipe if there is one and forgets it |
| `Provider.Globals.ResetBrokerSession` | src/broker/ProviderBrokerSession.cpp:71-79 | from any partly opened session to none, all its handles closed once, flags cleared, generation moved on |
| `Provider.Globals.CloseBrokerSessionNow` | src/broker/ProviderBrokerSession.cpp:81-103 | the same end on both of its branches |
| `Provider.Globals.MoveOut` | src/broker/ProviderSerialization.cpp:295-301 | the session is gone but for the two process handles, which the caller now has open |
| `Provider.MovedAndClosed` | src/broker/ProviderSerialization.cpp:362-369 | moving the handles out and closing them later is the whole end of a session |
| `Provider.Globals.ReturnNoCredentialNotFinished` | src/broker/ProviderSerialization.cpp:81-96 | closes both handles and answers "not finished" |
| `Provider.Globals.ReturnNoCredentialFinished` | src/broker/ProviderSerialization.cpp:98-110 | closes both handles and answers "finished" |
| `Provider.Globals.SetUsageScenario` | src/core/ProviderCore.cpp:32-58 | keeps the invariant and reaches the specified state; supported just for LOGON |
| `Provider.Globals.GetCredentialAt` | src/core/ProviderCore.cpp:152-164 | index 0 with memory adds one credential with the provider's scenario; anything else changes nothing |
| `Provider.Globals.SetSelected` | src/core/ProviderCore.cpp:184-237 | keeps the invariant and decides as specified |
| `Provider.Globals.SetDeselected` | src/core/ProviderCore.cpp:239-246 | keeps the invariant; ends an active session of a logon tile and asks for an auto-submit |
| `Provider.Globals.ConnectBroker` | src/broker/ProviderSerialization.cpp:227-275 | a whole session on three new handles, or on each failure none with every handle opened closed again |
| `Provider.Globals.HandleAuthSuccessMessage` | src/broker/ProviderSerialization.cpp:112-163 | the specified answer to a success message, with both handles closed whether or not it packs |
| `Provider.Globals.HandleParsedBrokerMessage` | src/broker/ProviderSerialization.cpp:165-197 | the specified answer to each final message, with both handles closed on every branch |
| `Provider.Globals.ServeSession` | src/broker/ProviderSerialization.cpp:277-369 | every outcome of the read and every message type reach the specified state and answer |
| `Provider.Globals.GetSerialization` | src/broker/ProviderSerialization.cpp:213-370 | keeps the invariant and reaches the specified state and answer |
| `SessionInvariant.GenerationNext` | src/core/Provider.cpp:82 | the 32-bit increment follows the unbounded count of increments |
| `SessionRuns.StepKeeps` | src/broker/ProviderSerialization.cpp:213-370 | every LogonUI call with every outcome keeps the invariant |
| `SessionRuns.SessionIsWhole` | src/broker/ProviderBrokerSession.cpp:71-103 | on every run pipe, process, thread, connected and active stand or fall together, awaiting is flow 1 and leaves no tick, flow 2 is active and not awaiting |
| `SessionRuns.HandlesConserved` | src/broker/ProviderBrokerSession.cpp:25-79 | on every run the handles opened are those closed plus those held, and they are the session's three or none |
| `SessionRuns.StepBooks` | src/broker/ProviderSerialization.cpp:213-370 | one call ends at most one session, answers finally only by ending one, and every end moves the generation on and clears the tick |
| `SessionRuns.SessionsBalance` | src/broker/ProviderSerialization.cpp:362-369 | on every run sessions connected are those ended plus the live one, and final answers are no more than sessions ended |
| `SessionRuns.CredentialIff` | src/broker/ProviderSerialization.cpp:112-197 | a credential is returned exactly for a success message with a user name when package and memory are there; it is the MSV blob for "." and the session is gone; every other answer carries nothing |
| `SessionFates.FirstSelectionSubmits` | src/core/ProviderCore.cpp:184-214 | on every run the first selection of a logon tile after a session end submits by itself, whatever lies between |
| `SessionFates.ReselectionRelaunches` | src/core/ProviderCore.cpp:184-214 | after a returned credential a selection submits at once and connects another session on new handles |
| `SessionFates.StaysLiveIff` | src/broker/ProviderSerialization.cpp:280-369 | corollary of one call: a session is there after a call exactly if one was reached and the read timed out or gave AUTH_PENDING or AUTH_IDLE |
| `SessionFates.AuthFailEndsSession` | src/broker/ProviderSerialization.cpp:172-180 | corollary of one call: AUTH_FAIL is answered "not finished" with the session ended and all handles closed |
| `SessionFates.UsageKeepsOnlyLogon` | src/core/ProviderCore.cpp:32-58 | corollary of one call: SetUsageScenario leaves a session exactly when it re-enters LOGON with one live, and then touches nothing else; otherwise no session, handle, mark or tick is left and the generation has moved on |
| `SessionFates.DeselectionEnds` | src/core/ProviderCore.cpp:239-246 | corollary of one call: deselecting a logon tile ends its session and makes the next selection submit; without a session it changes nothing |
| `SessionFates.ReadFailureRecovers` | src/broker/ProviderSerialization.cpp:282-324 | corollary of one call: a failed read ends the session, marks the next selection and requests a refresh in 50 ms under the new generation; a timeout keeps all and requests one in 300 or 2500 ms |
| `Effects.RequestsExactly` | src/broker/ProviderSerialization.cpp:282-356 | which calls ask for a refresh, and in how many ms: 300 after AUTH_PENDING or a timeout while awaiting, 2500 after AUTH_IDLE or another timeout, 50 after a failed read, and no other; always under the generation the call ends with |
| `Effects.FlagsExactly` | src/broker/ProviderSerialization.cpp:213-370 | every flag after a call: AUTH_PENDING awaits with flow 1 and tick 0, AUTH_IDLE with flow 2 leaves the tick, a timeout changes nothing, and each end clears all but the force mark, which a failed read sets |
| `Effects.SessionExactly` | src/broker/ProviderSerialization.cpp:227-369 | the session and open handles after a call: kept or made on the next three handles for a timeout or a progress message, else none |
| `Effects.AnswerExactly` | src/broker/ProviderSerialization.cpp:165-197 | "finished" is answered exactly for AUTH_FALLBACK, a credential only for AUTH_SUCCESS, and only a credential carries a blob |
| `Effects.CredentialExactly` | src/broker/ProviderSerialization.cpp:112-163 | AUTH_SUCCESS is answered with its name and password packed for "." if there is a name, a package and memory, and with "not finished" otherwise |
| `Effects.SelectExactly` | src/core/ProviderCore.cpp:184-237 | a selection submits a logon tile exactly when waiting, forced, on tick 0 or 2500 ms after it modulo 2^32, and changes only the mark it uses and the tick |
| `Effects.DeselectExactly` | src/core/ProviderCore.cpp:239-246 | deselecting a logon tile with a session leaves none and sets the force mark; else nothing changes |
| `Effects.UsageExactly` | src/core/ProviderCore.cpp:32-58 | a session kept for LOGON is untouched; in every other case no flag is left set and the generation is two on |
| `Effects.CredentialAdded` | src/core/ProviderCore.cpp:152-164 | a new credential has the scenario of the provider, and nothing else changes |
| `Throttle.SubmitsExactlyWhen` | src/core/ProviderCore.cpp:184-214 | on every run a logon tile submits exactly when waiting, forced, or due by the time of the last submission since the last reset; two by the window alone are 2500 ms apart unless the first fell on tick 0 |
| `Throttle.ForceNeverDecides` | src/core/ProviderCore.cpp:200-209 | on every run the force mark is never what decides: where it is set without a session the window is open too, so a logon tile submits exactly when waiting or due |
| `Throttle.SubmissionRate` | src/core/Provider.cpp:34-44 | from any point of any run on, whatever is called between: at most 1 + T/2500 submissions by the window in T ms, and one more for each call that resets the window and each submission on tick 0 |
| `Throttle.IdleRate` | src/core/ProviderCore.cpp:184-214 | while nothing resets the window of a session that is not waiting, all submissions are the window's, so at most 1 + T/2500 apart from tick 0 |
| `Throttle.TickZeroIsForgotten` | src/core/Provider.cpp:39 | a run from the start with three selections, one on tick 0, two of which submit a millisecond apart |
| `Refresh.StepKeeps` | src/core/Provider.cpp:51-186 | every step of any thread keeps the slot's single owner, the references, the contexts and the timers in balance |
| `RefreshFates.SlotIsExclusive` | src/core/Provider.cpp:51-69 | on every interleaving the slot is taken just while exactly one agent owns it, references are the registration's plus the owner's, contexts made are those freed plus at most one, nothing is freed or called that is not there, and the early return is never taken |
| `RefreshFates.TurnsAdvance` | src/core/Provider.cpp:114-159 | thirteen turns, however interleaved, bring an agent to its end, and then it no longer owns the slot |
| `RefreshFates.SlotIsFreed` | src/core/Provider.cpp:51-69 | an owner that gets its turns gives the slot back |
| `RefreshFates.StaleNeverWakes` | src/core/Provider.cpp:59-61 | a refresh calls CredentialsChanged exactly if the generation increments between its last reading and its comparison, not its call, are a multiple of 2^32, and the last reading is the caller's own unless that was not positive |
| `RefreshFates.DroppedRefreshFate` | src/core/Provider.cpp:116-121 | a dropped request is followed by a call of the owner that beat it exactly if the owner was about to call, or had its comparison ahead, came to it and found its own generation |
| `RefreshFates.CallsExactlyWhen` | src/core/Provider.cpp:51-159 | an agent whose comparison is ahead calls CredentialsChanged in the end exactly if the generation is the one it read and, in what follows, the slot is free for it, events are registered, memory and timer are there and no session ends before its comparison |
| `RefreshFates.DroppedRefreshIff` | src/core/Provider.cpp:59-121 | a dropped request is followed by a call of the owner that beat it exactly if the owner was about to call, or had its comparison ahead in its own generation and all that follows goes smoothly for it |
| `RefreshFates.PassedOwnerLosesRefresh` | src/core/Provider.cpp:59-68 | a run without any session end in which a request loses to an owner that has already called |
| `RefreshPairs.CallsWithOnePair` | src/core/Provider.cpp:123-131 | on every interleaving a refresh holds the object and the context of one and the same earlier registration |
| `RefreshPairs.LastRegistration` | src/core/Provider.cpp:162-176 | the registration in force is the last one made, object and context together |
| `RefreshPairs.ClearedRegistration` | src/core/Provider.cpp:177-186 | after the events are cleared, and until they are set again, neither object nor context is left |
| `RefreshPairs.ReadAgainIff` | src/core/Provider.cpp:114-118 | a request carries the generation of its making if that was positive, and otherwise the one read in its first turn |
| `Joint.CallLeaves` | src/broker/ProviderSerialization.cpp:280-369 | what a LogonUI call does to the timer is its generation increments, its session end and at most one request under the generation it ends with |
| `JointRuns.SystemsBalance` | src/core/Provider.cpp:24-32 | on every joint run the timer has seen the session's generations and ends but for those its call has still to make, and every refresh is one request of the session with the generation that carried, never read again |
| `JointRuns.Projects` | src/core/Provider.cpp:51-186 | the halves of a joint run are runs of the session and of the timer |
| `JointRuns.WakesInItsSession` | src/core/Provider.cpp:59-61 | on every joint run a comparison succeeds exactly if the increments since the request are a multiple of 2^32, and with fewer only if no session has ended since |
| `JointRuns.CallsAfterEndIff` | src/core/Provider.cpp:59-60 | within 2^32 generations, a refresh requested before a session end calls CredentialsChanged after it exactly if its comparison had succeeded before the end and its call was still to come |
| `JointRuns.CallAfterSuccess` | src/broker/ProviderSerialization.cpp:158-161 | a run in which AUTH_SUCCESS returns the credential and ends the session, and an earlier refresh calls CredentialsChanged after that |
| `JointRuns.RequestFate` | src/core/Provider.cpp:114-159 | on every joint run a request about to come for the slot ends in its own call exactly if all goes smoothly for it |
| `JointRuns.RecoveryFate` | src/broker/ProviderSerialization.cpp:304-308 | on every joint run, if the request of a call that ended a session finds the slot taken, it is dropped, and the owner calls afterwards exactly if it was past its comparison and about to call |
| `JointRuns.LostRecovery` | src/broker/ProviderSerialization.cpp:282-308 | a run of calls in which a read timeout arms a refresh, the next call loses the broker, its request for a refresh is dropped and nothing wakes LogonUI |
| `FreeThreaded.FreeThreadedSafe` | src/broker/ProviderBrokerSession.cpp:71-103 | with calls overlapping, while the lock is free the session is whole, no live handle is overwritten, and the session is active exactly if it is connected and no late store of a SetUsageScenario was made since the store that made it active |
| `FreeThreaded.ConnectedYetInactive` | src/core/ProviderCore.cpp:36-41 | a run that ends connected and inactive |
| `FreeThreaded.AloneAsInTurn` | src/broker/ProviderSerialization.cpp:213-370 | a call that no other disturbs does to the session what the calls do one after another |
| `PkgCache.WrittenOnce` | src/auth/SerializationAuth.cpp:75-91 | for any threads and interleaving the slot is written at most once, and with ids below 2^31 every call returns its final value |
| `PkgCache.AgreementIff` | src/auth/SerializationAuth.cpp:75-91 | all calls agree in every interleaving exactly if every possible id is below 2^31 or there is only one |
| `PkgCache.TurnExactly` | src/auth/SerializationAuth.cpp:75-91 | a call that finds a positive id returns it at once; another fails exactly if its lookup gives nothing, and stores only into an empty slot |
| `PkgCache.ThreeTurns` | src/auth/SerializationAuth.cpp:75-91 | however threads interleave, a call that gets three turns has returned |
| `EnvBlock.PrefixMatches` | src/broker/ProviderPipe.cpp:17 | the bounded comparison holds exactly for entries of eight units or more that start with CP_PIPE= in any case of letters, unit by unit |
| `EnvBlock.CopyOthers` | src/broker/ProviderPipe.cpp:16-22 | the walk copies the other entries in their order |
| `EnvBlock.BuildChildEnvironmentWithPipe` | src/broker/ProviderPipe.cpp:7-31 | the result is the double-NUL block of the others and one CP_PIPE entry, or nothing without a parent block |
| `EnvBlock.BlockUnique` | src/broker/ProviderPipe.cpp:16-22 | a double-NUL block has one reading only |
| `EnvBlock.ChildReads` | src/broker/ProviderPipe.cpp:24-28 | the child reads exactly the other entries followed by CP_PIPE, and no other entry is a CP_PIPE |
| `EnvBlock.ChildVariables` | src/broker/ProviderPipe.cpp:16-28 | the child reads each variable of the parent as often as it is there unless it starts with CP_PIPE= in any case of letters, no other, and last CP_PIPE= with the name |
| `EnvBlock.OrderKept` | src/broker/ProviderPipe.cpp:16-22 | the variables kept are in the order of the parent |
| `EnvBlock.RebuildReplaces` | src/broker/ProviderPipe.cpp:7-31 | building again from a child's block replaces that entry and nothing else |

## Left out

- Packing.PackAutoEx: what the Kerberos packer and the Unlock branches (src/auth/Serialization.cpp:71-137, 188-211) give is any outcome the `Env` of a call names; `SessionRuns.CredentialIff` shows that no run asks for it.
- Unicode.WidenUtf8: what the system's converter makes of invalid UTF-8 is any string the `Env` of a call names.
- Provider.Globals.WaitAndCloseBrokerProcess: how a wait or a termination turns out is left open, and so is whether the broker still lives afterwards.
- Provider.Globals.ConnectBroker: the retries inside the pipe's creation and the broker's launch, the pipe's name and its security descriptor are outcomes of the call; LaunchBroker opens both handles or none.
- Provider.Globals.GetSerialization: the calls follow one another, as in the registered apartment model; overlapping calls are `FreeThreaded`, which keeps only the session struct and the active flag. The E_POINTER tests, status texts, the class id put beside the blob, logging and the erasing of strings are left out.
- Refresh.StepKeeps: the timer, its callback and the registration are values stepped by an interleaving, not class methods; the model does not capture their update in place. Delays are left out, so a timer may fire at any time after it is armed.
- Transport.ReadPipeMessageWithTimeout: a read that completes late does so before the buffer is zeroed; waits have no length of their own, and how long a slice lasts is an assumption of `SliceBound`.
- JointRuns.SystemsBalance: a call's session step is taken as it starts, and what it does to the timer follows one by one; calls do not overlap.
- Transport.SliceBound: says nothing for an unlimited wait, which need not end; the 64-bit clock is taken not to wrap.
- EnvBlock.PrefixMatches: case folding is that of the C locale.
- EnvBlock.BuildChildEnvironmentWithPipe: takes the entries of the parent's block as a ghost argument; memory that is no double-NUL block is not considered.
- ReportResult, NtStatusToText, field descriptors, the credential count, class factory, registration and COM reference counts of the provider's own objects: no state of the protocol.
- The installer apart from JsonEscape and its hex helpers: registry edits, wizard pages and files.
