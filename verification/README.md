# Cotty: a verified model of its stateful parts

Cotty shares a terminal session between people and agents. This project models, in Dafny, the parts of it that carry state
and make promises about whole runs:

- **the screen** an agent reads (`internal/agent/screen.go`): a byte-at-a-time parser with partial escape sequences and partial
  UTF-8 carried across writes, a bounded scrollback and a bounded snapshot;
- **the multisig** (`internal/host/multisig.go`): keystrokes of supervised participants wait as proposals for M of N approvers;
- **chat**: the queue that hands agents' replies to waiting questions, and the sliding-window limiter (`internal/host/say.go`);
- **guests**: unique names and per-guest permission (`internal/session/registry.go`), and the host's coarse gate in front of a
  relay (`internal/host/relay.go`, `internal/relay/relay.go`);
- **the way of a keystroke** from a guest's frame to the PTY and the audit trail (`internal/host/host.go`);
- **the trading book** (`internal/arena/book.go`);
- **batched RPC reads** (`internal/hood/hood.go`).

Each part has a specification on values (`...Spec`, `Names`, `Utf8`, `Landing`), modules of lemmas about it, and a class or
methods in the source's own form, proved to refine the specification: `Screen`, `Multisig`, `Answers`, `SayLimiter`,
`Registry`, `HostGate`, `Host`, `Portfolio`, and the loops of `BatchModel`. A region under a mutex is one step; where the
source unlocks between deciding and acting (votes, frames, control calls), or does two things unlocked one after the other
(the audit entry and the write to the PTY), the model has two steps and any interleaving.
Bytes are numbers 0 to 255, times are integers in nanoseconds, and clock readings are parameters supplied from outside.
Money is `real`. `dafny verify dfyconfig.toml` checks everything.

## What the code does that its documentation does not say

- **The escape limit is 257 bytes.** `escape` looks for a terminator before it looks at the length, so a sequence of exactly
  257 bytes is still recognised. A longer one loses its first 257 bytes and the rest is read as text
  (`ScreenEscapes.LongSequenceIsCut`). A title ended by BEL is invisible up to 255 bytes; one ended by ST up to 253 and again
  at 255, because at 254 the limit falls between ESC and backslash and the backslash is drawn
  (`ScreenGrammar.TitleTransparentExactly`, `ScreenGrammar.TerminatedTitleTransparentExactly`).
- **Some standard sequences leak.** `escape` ends SOS strings (ESC X) and escape sequences with intermediate bytes, such as
  ESC # 8 or ESC % G, after two bytes, and charset designations after three, and draws what is left. Which ones, exactly, is
  `ScreenGrammar.RecognisedExactly`; what they draw is `ScreenGrammar.SequenceDraws`.
- **A snapshot skips one line start.** It is cut after the first newline inside its 12 KiB window, so a line that starts
  exactly at the mark is skipped too (`ScreenScrollback.SnapshotIsBoundedSuffix`).
- **"A per-call error leaves its result nil" (`internal/hood/hood.go:273-274`) needs a server that answers each id once.** With
  an answer followed by an error for one id, both stay set; the exact condition is `BatchSpec.ErrorLeavesResultNil`.
- **One of values and `Errors` needs distinct addresses.** An address asked for twice can land in both
  (`Landing.OneSideExactlyWhenDistinct`, `Landing.RepeatedAddressOnBothSides`).
- **Trading never creates equity exactly when no sellable quote is crossed.** `Execute` does not compare bid and ask; at a bid
  above the ask a sale is a gain at the mid (`BookProofs.TradingNeverCreatesEquityExactly`). The change of equity as minus the
  sum of half-spreads holds for all quotes.
- **The coarse gate needs the answer of every successful `allow`.** If the host stops waiting for it, a writable guest stays
  hidden; losing any other answer does no harm (`Gate.GateSafeExactly`, `Gate.LostResultHidesGuest`).
- **The audit trail can tell another order than the PTY saw.** `applyInput` and the keyboard loop audit and write in two
  unlocked steps, so entries of different goroutines can change places (`HostOrder.AuditCanBeOutOfOrder`). Nothing is written
  that was not audited, each goroutine's own order is kept, and the whole order is the same exactly when no entry overtook an
  older one (`HostOrder.AuditCoversThePty`, `HostOrder.AuditIsThePtyLog`).

## Model

| member | source | states |
|---|---|---|
| Utf8.DecodeEncode | internal/agent/screen.go:46 | decoding the RFC 3629 encoding of any rune gives that rune and its length, whatever bytes follow |
| Utf8.EncodeDecode | internal/agent/screen.go:46 | whatever the decoder does not call an error is exactly the encoding of the rune it returns: it accepts no overlong form, no surrogate, nothing beyond U+10FFFF |
| Utf8.IncompleteIsProperPrefix | internal/agent/screen.go:47-50 | the bytes kept back for the next write are exactly the non-empty proper prefixes of encodings, at most three bytes |
| Utf8.DecodeIsStable | internal/agent/screen.go:46-51 | a rune that is complete is decoded the same, and never held back, when more bytes follow |
| ScreenModel.Screen.Write | internal/agent/screen.go:30-72 | the loop over the buffer, with its early returns, leaves the fields that the specification of one write gives, for every state and every input |
| ScreenModel.Screen.Print | internal/agent/screen.go:52-70 | newline, return, backspace, tab, control, error and printable runes each change the screen as specified |
| ScreenModel.Screen.Pad | internal/agent/screen.go:63-65 | the loop of spaces ends and fills to the next tab stop |
| ScreenModel.Screen.Put | internal/agent/screen.go:74-80 | a rune is appended, over an emptied line after a lone return |
| ScreenModel.Screen.Newline | internal/agent/screen.go:82-89 | the line is stored without trailing spaces and the scrollback is cut to 400 |
| ScreenModel.Screen.Escape | internal/agent/screen.go:94-128 | whatever it uses of the buffer, feeding the rest reaches the same screen as feeding it all; it ends a sequence exactly when none is left partial |
| ScreenModel.Screen.Collect | internal/agent/screen.go:95-126 | one byte of a sequence: completion per kind, and the runaway limit after it |
| ScreenModel.Screen.ApplyCsi | internal/agent/screen.go:130-145 | erase in display and erase in line, every other final byte changing nothing |
| ScreenModel.Screen.Snapshot | internal/agent/screen.go:148-160 | the snapshot is the bounded trimmed text of the current fields |
| ScreenModel.Screen.Cut | internal/agent/screen.go:153-158 | the 12 KiB window, cut after its first newline |
| ScreenChunks.FeedSplit | internal/agent/screen.go:35-71 | stopping the two nested loops anywhere and going on with a later write is one uninterrupted run, from any state without held-back bytes |
| ScreenChunks.WriteSplit | internal/agent/screen.go:30-72 | for all a and b and every state, writing a and then b leaves lines, cur, cr, esc and pending as writing a+b does |
| ScreenChunks.WriteKeepsValid | internal/agent/screen.go:30-128 | every write keeps: at most cap lines, each the trimmed encoding of printable runes; cur printable; esc at most 256 bytes, starting with ESC, not complete; pending a proper prefix of an encoding of at most 3 bytes; never both |
| ScreenChunks.TrimmedLineOk | internal/agent/screen.go:84 | trimming trailing spaces from encoded printable text leaves an encoding of printable text that ends in no space |
| ScreenChunks.WriteNothing | internal/agent/screen.go:35-37 | an empty write changes nothing in any reachable state, held-back bytes included |
| ScreenChunks.ChunkIndependence | internal/agent/screen.go:30-72 | any cutting of a stream into writes leaves the screen of one write of the whole stream |
| ScreenChunks.SameStreamSameSnapshot | internal/agent/screen.go:30-72 | two cuttings of one stream give the same state and the same snapshot |
| ScreenEscapes.SequenceCompletesLast | internal/agent/screen.go:101-121 | what the recogniser takes for a sequence, by its second byte and first terminator, is complete at its last byte and at none before |
| ScreenEscapes.FeedCollects | internal/agent/screen.go:95-100 | up to 256 bytes of a sequence are held back and do nothing |
| ScreenEscapes.SequenceTakesEffect | internal/agent/screen.go:94-128 | a sequence of at most 257 bytes does what it means and nothing else, whatever follows |
| ScreenEscapes.LongSequenceIsCut | internal/agent/screen.go:122-125 | a longer one loses its first 257 bytes and the rest is read in the open |
| ScreenEscapes.MeaningIs | internal/agent/screen.go:130-145 | the two sequences that clear the screen leave no lines, no text and no remembered return; the three that clear the line empty it after a return and touch nothing else; all others, with whatever parameters and final byte, mean nothing |
| ScreenEscapes.EscapeTransparency | internal/agent/screen.go:94-145 | a sequence of at most 257 bytes that is none of these five leaves the whole state unchanged |
| ScreenEscapes.DeletingSequences | internal/agent/screen.go:37-45 | deleting all such sequences at rune boundaries of a stream does not change the screen |
| ScreenGrammar.RecognisedExactly | internal/agent/screen.go:101-121 | of the control sequences, control strings (SOS included) and escape sequences of ECMA-48 (sections 5.3 to 5.6) and ECMA-35 (section 13), written out by byte ranges, the recogniser ends at the last byte and at none before exactly those that are not SOS strings and have no intermediate bytes other than a charset designation of three bytes |
| ScreenGrammar.UnleakingIsSequence | internal/agent/screen.go:101-121 | every such standard sequence is a sequence to the recogniser as a whole |
| ScreenGrammar.LeakIsRead | internal/agent/screen.go:113-121 | every other one is taken to end after two or three bytes, and the rest is read in the open, whatever follows |
| ScreenGrammar.SequenceDraws | internal/agent/screen.go:94-128 | any standard sequence with ASCII payload that does not erase changes the screen by drawing exactly its leaked or surplus bytes and nothing else, at every length |
| ScreenGrammar.TransparentExactly | internal/agent/screen.go:94-145 | a standard sequence leaves every screen at a boundary unchanged if and only if it is none of the five that erase and leaves nothing to be drawn |
| ScreenGrammar.TitleTransparentExactly | internal/agent/screen.go:108-125 | a window title of any printable ASCII bytes ended by BEL is invisible if and only if it has at most 255; the surplus of a longer one appears as text, on any screen |
| ScreenGrammar.TerminatedTitleTransparentExactly | internal/agent/screen.go:108-125 | one ended by ST is invisible if and only if it has at most 253 bytes or exactly 255; at 254 a backslash appears, from 256 on the surplus |
| ScreenEscapes.ClearingStartsOver | internal/agent/screen.go:132-137 | after ESC [ 2 J or ESC [ 3 J on any screen at a boundary, the screen goes on as if it had been blank |
| ScreenEscapes.ErasingTheLine | internal/agent/screen.go:138-143 | ESC [ K, ESC [ 0 K and ESC [ 2 K on any screen at a boundary: after a return the current line is emptied, the finished lines and the return stay; without one nothing changes |
| ScreenScrollback.ScrollbackRefines | internal/agent/screen.go:82-89 | after any writes the bounded screen is the unbounded one with only its last lines kept |
| ScreenScrollback.ScrollbackCount | internal/agent/screen.go:26-27 | of n lines of an untrimmed screen the last min(400, n) are kept |
| ScreenScrollback.SnapshotIsBoundedSuffix | internal/agent/screen.go:153-158 | a snapshot is a suffix of at most 12 KiB: everything if it fits, else from the first line start after the mark, else from the mark |
| ScreenText.FeedRune | internal/agent/screen.go:46-70 | the encoding of a printable rune draws that rune and leaves nothing behind |
| ScreenText.FeedText | internal/agent/screen.go:46-80 | encoded printable text draws that text |
| ScreenText.BackspaceUndoes | internal/agent/screen.go:57-60 | a backspace after a printable rune takes it back exactly |
| ScreenText.TabReachesTabStop | internal/agent/screen.go:61-65 | a tab adds one to eight spaces and ends on a multiple of eight, after a return from an empty line; finished lines stay |
| ScreenText.ReturnWaits | internal/agent/screen.go:55-56 | a return is remembered and changes nothing else |
| ScreenText.BackspaceTakesOne | internal/agent/screen.go:57-60 | a backspace takes one character off the line, if there is one, and leaves a remembered return and the finished lines |
| ScreenText.NewlineFinishes | internal/agent/screen.go:82-85 | a newline stores the line as it stands without its trailing spaces, empties it and forgets a return |
| ScreenText.OtherControlsAreIgnored | internal/agent/screen.go:66-70 | every other control character and DEL leave the screen as it is |
| ScreenText.BadBytesAreDropped | internal/agent/screen.go:46-51 | a byte from which no encoding goes on, neither whole nor still to come, is dropped alone and changes nothing |
| ScreenText.ReplacementsAreIgnored | internal/agent/screen.go:67 | an encoded replacement character changes nothing |
| ScreenText.SplitJoin | internal/agent/screen.go:151-152 | a text joined from lines without newlines splits into those lines again |
| ScreenText.SnapshotShowsTheScreen | internal/agent/screen.go:148-160 | of any screen that writes can produce, the snapshot is the bounded rest, after trimming newlines and spaces at the end, of a text whose lines are the finished lines and the current one |
| ScreenText.FeedDrafts | internal/agent/screen.go:55-56 | of several drawings of one line, each ended by a return, the last that drew anything is left |
| ScreenText.FeedLine | internal/agent/screen.go:53-54 | a newline stores that drawing without trailing spaces |
| ScreenText.AgentReadsWhatWasPrinted | internal/agent/screen.go:10-14 | for any document and any cutting of its bytes into writes, the scrollback is the last 400 rendered lines and the snapshot their bounded text |
| MultisigSpec.SweepOne | internal/host/multisig.go:200-212 | looking at one more proposal changes that one alone, so any walk of the map ends in the same pointwise sweep |
| MultisigRuns.SweepIs | internal/host/multisig.go:200-212 | a sweep expires exactly the pending proposals over one time to live and forgets exactly the others over four |
| MultisigRuns.RefusedExactly | internal/host/multisig.go:108-133 | each refusal happens exactly in its case, in the order of the checks, and whether the table was swept by then |
| MultisigRuns.CountedIs | internal/host/multisig.go:134-146 | a counted vote adds the voter on the chosen side of that one proposal, whose new state follows from the two counts |
| MultisigTally.CastKeepsSound | internal/host/multisig.go:134-144 | counting a ballot keeps the tallies exact: state and tallies always fit each other |
| MultisigTally.NextKeepsSound | internal/host/multisig.go:91-98 | every locked region keeps: approved and rejected duplicate-free, disjoint, approvers only; pending exactly below quorum and within reach; numbers in range |
| MultisigTally.RunKeepsSound | internal/host/multisig.go:120-147 | the same for every reachable table |
| MultisigTally.TallyDecides | internal/host/multisig.go:134-144 | executed exactly when a quorum approved, rejected exactly when a quorum is out of reach, pending otherwise, for any ballots in any order |
| MultisigTally.VoteOrderDoesNotMatter | internal/host/multisig.go:120-147 | when every approver votes once the outcome is executed or rejected by the number of approvals, and any permutation of the votes decides alike |
| MultisigTally.ApprovalsExecute | internal/host/multisig.go:134-141 | approvals by newcomers pile up until the quorum executes |
| MultisigTally.PendingIsWinnable | internal/host/multisig.go:139-144 | a pending proposal can still be executed by those who have not voted; a rejected one cannot, whoever votes how |
| MultisigRuns.OneStepOnTime | internal/host/multisig.go:200-212 | within its time to live a proposal is changed by no step but a ballot on itself |
| MultisigRuns.OnlyItsOwnVotesCount | internal/host/multisig.go:91-147 | over any run within its time to live a proposal is what its own ballots make of it, whatever else is held, voted on, listed or swept |
| MultisigRuns.ProposalDecidedByItsVotes | internal/host/multisig.go:105-147 | a proposal on which every approver votes once in time, among anything else, ends executed exactly with a quorum of approvals and rejected otherwise |
| MultisigRuns.StepLifecycle | internal/host/multisig.go:91-144 | new proposals take the next number; of the others exactly the closed ones past four times to live are forgotten, by a step that sweeps; what stays is what age and then its own ballot make of it, and a closed one stays as it is |
| MultisigRuns.SettledForGood | internal/host/multisig.go:123-133 | a closed or forgotten number stays so in every run: its record never changes, every vote on it is refused and changes nothing, it is never given out again |
| MultisigSystem.DecisionIsRightful | internal/host/multisig.go:134-147 | a vote that decides finds its proposal pending and takes out that proposal's bytes, in time, with exactly quorum distinct unsupervised approvers |
| MultisigSystem.StepOrigin | internal/host/multisig.go:91-98 | a record comes from one hold and keeps its author, bytes and time; it becomes executed by the deciding vote alone |
| MultisigSystem.TakeKeepsInvariant | internal/host/multisig.go:120-157 | one locked region or one unlocked action keeps: each number decided at most once, executed exactly if decided, every decision in exactly one of on its way and run |
| MultisigSystem.ExactlyOnce | internal/host/multisig.go:120-157 | in every interleaving execute runs at most once per number, and with no vote on its way exactly what was decided has run |
| MultisigSystem.HeldIsWhatWasProposed | internal/host/multisig.go:91-98 | the k-th number belongs to the k-th call of hold, with its author, bytes and time |
| MultisigSystem.ApprovalsWereCast | internal/host/multisig.go:116-138 | nobody is counted as approver who did not approve that number in the run, within its time to live |
| MultisigSystem.ApprovedBeforeDecided | internal/host/multisig.go:134-147 | the approvals a decision counts were all cast at or before the step that decided |
| MultisigSystem.OnlyApprovedInputRuns | internal/host/multisig.go:91-157 | whatever runs has the bytes and author of one earlier hold and was decided at one step, at an age within the time to live, with exactly quorum distinct approvers, none supervised, each of whom had approved it by that step and in time |
| MultisigModel.TrimSpaceIs | internal/host/multisig.go:61 | the result is a cut of the text with nothing but white space on either side of it |
| MultisigModel.Multisig.New | internal/host/multisig.go:52-85 | accepts exactly a quorum from 1 to the number of distinct approvers, someone supervised and no name on both lists; else the error of the first failing check |
| MultisigModel.Multisig.Expire | internal/host/multisig.go:203-210 | one proposal of the sweep expires or is due to be forgotten, as specified |
| MultisigModel.Multisig.ExpireLocked | internal/host/multisig.go:200-212 | the loop over the map, deleting as it goes, in any order, is the pointwise sweep |
| MultisigModel.Multisig.Hold | internal/host/multisig.go:91-98 | sweeps, takes the next number and stores the proposal as pending |
| MultisigModel.Multisig.Count | internal/host/multisig.go:134-144 | the ballot and the change of state, in place |
| MultisigModel.Multisig.Vote | internal/host/multisig.go:108-147 | every refusal in its order, the new table, and the input to execute exactly when this vote reached the quorum |
| MultisigModel.Multisig.PendingList | internal/host/multisig.go:169-181 | sweeps, and lists exactly the proposals that are pending then |
| LimiterSpec.KeptCount | internal/host/say.go:37-42 | pruning keeps as many entries as there are positions under 10 s old |
| LimiterSpec.KeptEach | internal/host/say.go:37-42 | of each entry under 10 s old as many as there are, and none of any other |
| LimiterSpec.KeptInOrder | internal/host/say.go:37-42 | and in the order of the log |
| LimiterSpec.AllowLimits | internal/host/say.go:37-48 | an attempt passes if and only if fewer than 5 positions of the log are under 10 s old; afterwards the log holds those entries and its own if it passed, with multiplicity |
| LimiterSpec.KeptTwice | internal/host/say.go:37-42 | pruning early loses nothing that a later pruning would keep |
| LimiterSpec.LogAgreesWithHistory | internal/host/say.go:30-49 | with a clock that does not go back, the pruned log and the full history of accepted messages have the same recent entries |
| LimiterSpec.LimitedByFullHistory | internal/host/say.go:29-49 | a message passes if and only if fewer than 5 positions in the list of all the sender's accepted messages are under 10 s old |
| LimiterSpec.AcceptedInOrder | internal/host/say.go:47 | accepted messages are in the order of time and never later than the last attempt |
| LimiterSpec.BurstsAreSpaced | internal/host/say.go:15-21 | a sender's (i+5)-th accepted message is at least 10 s after the i-th, in every run |
| LimiterSpec.SendersAreIndependent | internal/host/say.go:24-26 | a sender's log and accepted messages are what they would be had nobody else spoken |
| LimiterModel.SayLimiter.Allow | internal/host/say.go:30-49 | the verdict by the number of recent entries, the sender's log afterwards entry for entry, and every other sender's log as it was, though the log is filtered in its own array |
| LimiterModel.Prune | internal/host/say.go:37-42 | filtering into the front of the same array leaves the pruned log, as long as there are recent positions |
| LimiterModel.Append | internal/host/say.go:47 | append in place or into a larger copy adds the one entry |
| AnswersSpec.NextKeeps | internal/host/say.go:60-95 | every step of any wait or deliver keeps the queue increasing, its calls without replies, every other open call with a full slot, and every reply in one place |
| AnswersSpec.LeaveKeeps | internal/host/say.go:70-77 | a timed-out call that is still queued leaves without disturbing the others, and never had a reply |
| AnswersSpec.RunInvariant | internal/host/say.go:54-95 | the same in every interleaving |
| AnswersSpec.NeverBlocks | internal/host/say.go:78-79 | no step blocks under the lock, each channel gets at most one send, and a timed-out call missing from the queue finds its slot full |
| AnswersSpec.NothingLost | internal/host/say.go:83-95 | once no wait is open, the replies accepted are exactly the replies returned, each by the one call it was for, in queue order; a call without an answer was given none |
| AnswersSpec.OldestIsServed | internal/host/say.go:51-53 | a delivery is accepted exactly when some call is still without a reply, and goes to the one that queued first |
| AnswersModel.Answers.Enqueue | internal/host/say.go:60-64 | a fresh one-slot channel goes to the end of the queue |
| AnswersModel.Answers.Deliver | internal/host/say.go:85-95 | the protocol's delivery, and the answer whether anyone was waiting |
| AnswersModel.Answers.HandOver | internal/host/say.go:91-93 | the oldest waiter leaves the queue with the reply in its channel |
| AnswersModel.Answers.HeadIsFree | internal/host/say.go:91-93 | the oldest waiter's channel is empty, so the send under the lock cannot block |
| AnswersModel.Answers.Receive | internal/host/say.go:66-68 | the select takes the reply out of the channel and returns it |
| AnswersModel.Answers.GiveUp | internal/host/say.go:69-80 | after a timeout: out of the queue with no answer if still in it, else the reply that was delivered meanwhile |
| AnswersModel.Answers.Find | internal/host/say.go:72-77 | the place of the first occurrence of the channel in the queue, or its length |
| Names.CleanKeepsAllowed | internal/session/registry.go:45-48 | every allowed character is kept as often as it occurs, and no other |
| Names.CleanConcat | internal/session/registry.go:45-48 | and in order: what is kept of a text is what is kept of its parts |
| Names.Sanitize | internal/session/registry.go:47-56 | for any request: the cleaned text, cut at 24 characters if longer, or guest if nothing is left |
| Names.CleanIsIdentity | internal/session/registry.go:47-48 | a request that is clean already is taken as it is |
| Names.DecimalReads | internal/session/registry.go:74-76 | the decimals of a number are digits without a leading zero that read back to it |
| Names.CandidateText | internal/session/registry.go:73-76 | the candidates are the base itself and then the base, a hyphen and the decimals of 2, 3, ... |
| Names.DecimalIsInjective | internal/session/registry.go:74-76 | different numbers have different decimal suffixes |
| Names.CandidatesDiffer | internal/session/registry.go:74-76 | base, base-2, base-3, ... are pairwise different |
| Names.TakenFit | internal/session/registry.go:73-76 | by pigeonhole, no more candidates in a row can be taken than there are names taken |
| Names.FreeName | internal/session/registry.go:67-76 | the first free candidate exists among the first n+1, for n names taken, and every candidate before it is taken |
| Names.FreeNameIsLeast | internal/session/registry.go:73-76 | a free candidate whose predecessors are all taken is that name |
| SessionSpec.LeftIs | internal/session/registry.go:87-97 | leaving removes exactly the one guest and keeps all distinct |
| SessionSpec.NextIs | internal/session/registry.go:69-143 | each event exactly: one more guest at the end under the first free form of the requested name; the one guest cut out, the others in order; the permission of one name; nobody left |
| SessionSpec.NextKeepsSound | internal/session/registry.go:69-97 | join, leave, allow, deny and closing keep names and guests pairwise distinct |
| SessionSpec.NamesStayDistinct | internal/session/registry.go:67-143 | names are pairwise distinct in every run |
| SessionSpec.GrantIsByName | internal/session/registry.go:201-211 | allow and deny set the permission of exactly the guests with that name |
| RegistryModel.Registry.FindLocked | internal/session/registry.go:58-65 | the first guest of that name, or none exactly when nobody has it |
| RegistryModel.Registry.Join | internal/session/registry.go:69-85 | the old guests as they were and a fresh one after them, under the first candidate for the cleaned requested name that no old guest has, with the default permission, not warned yet and with the zero time as last activity, so that its first keystroke is announced |
| RegistryModel.Registry.Unused | internal/session/registry.go:73-76 | the search loop terminates, with the least free candidate |
| RegistryModel.Registry.Leave | internal/session/registry.go:88-97 | that guest and no other is spliced out; a second call changes nothing |
| RegistryModel.Registry.CloseAll | internal/session/registry.go:135-143 | the list is empty and the rest of the state is as it was |
| RegistryModel.Registry.HandleInput | internal/session/registry.go:148-177 | input passes exactly for a writable guest, under its name; the warning comes once; the announcement is throttled |
| RegistryModel.Registry.Grant | internal/session/registry.go:201-211 | permission changes for the named guest alone; success exactly when the name is taken |
| RegistryModel.Registry.SetWritable | internal/session/registry.go:206-209 | the permission is set, and allowing resets the one-time warning |
| RegistryModel.Registry.Kick | internal/session/registry.go:225-235 | the named guest leaves, or an unknown name changes nothing |
| Gate.ApplyIs | internal/relay/relay.go:156-162 | allow and deny set the permission of exactly the named guest, kick removes it and keeps all others, list and unknown commands change nothing; success exactly when there is such a guest |
| Gate.RelayKeeps | internal/session/registry.go:69-97 | guests coming and going under any names keep every writable guest covered by the host's books or the call under way |
| Gate.HandleKeeps | internal/relay/relay.go:156-162 | so does carrying out a control call |
| Gate.ReceiveKeeps | internal/host/relay.go:245-261 | so does booking its result |
| Gate.LoseKeeps | internal/host/relay.go:262-263 | so does losing an answer, unless it is the success of an allow |
| Gate.RunInvariant | internal/host/relay.go:224-265 | so does every run that loses no success of an allow |
| Gate.GateNeverHides | internal/host/relay.go:163-169 | in every such run, with no control call going on, a guest writable at the relay implies anyWrite at the host, across leaves and rejoins |
| Gate.GateSafeExactly | internal/host/relay.go:244-264 | for any set of answers that may be lost: the gate hides nobody, with no call going on, in all runs that lose only those, if and only if the success of an allow is not among them |
| Gate.GateHidesOnlyInFlight | internal/host/relay.go:244-260 | in such a run a writable guest is hidden only while the answer to the very call that allowed it is on its way |
| Gate.LostResultHidesGuest | internal/host/relay.go:262-263 | a run of the model that loses the success of one allow and nothing else ends with a writable guest hidden and no call going on |
| Gate.BooksKeepLastWord | internal/host/relay.go:250-252 | a name is booked as allowed exactly when the last successful word on it is an allow |
| Gate.GateOpensOnlyByHost | internal/host/relay.go:250-260 | against any relay, some name is booked as allowed exactly when some name's last successful word from the host is an allow |
| Gate.HostGate.ControlResult | internal/host/relay.go:245-261 | the books after a result, and anyWrite recomputed over all names |
| Gate.HostGate.Input | internal/host/relay.go:163-181 | input passes exactly when the gate is open and the frame opens, under the sender's name or as guest |
| HostProofs.NextKeeps | internal/host/host.go:139-194 | every step of a local session keeps each frame in exactly one place, each proposal made of one frame of a supervised guest, each audit entry justified, and every entry either written or on its way |
| HostProofs.RunInvariant | internal/host/host.go:139-194 | so does every run |
| HostProofs.FramesWereWritable | internal/session/registry.go:148-169 | every frame on its way to the PTY was taken at a step at which its guest was writable, under the guest's name |
| HostProofs.EveryWriteIsAccountedFor | internal/host/host.go:173-192 | each audit entry, and so each write to the PTY, is the host's own, or a frame of an unsupervised guest writable when it was handled, or such a frame of a supervised guest, held as a proposal and decided within its time to live by exactly quorum distinct unsupervised approvers who had approved it in time and by then |
| HostOrder.NextIsOne | internal/host/host.go:139-192 | every step keeps each goroutine (a connection, a control call, the keyboard) in the middle of one thing at most |
| HostOrder.AuditCoversThePty | internal/host/host.go:139-142 | in every interleaving: the PTY log and the entries on their way are together exactly the audit entries, so nothing is written that was not audited before; each writer's own order is kept; with none on its way both logs hold the same entries |
| HostOrder.OrderedExactlyInTurn | internal/host/host.go:302-310 | the PTY log is an initial part of the audit trail, in order, if and only if no entry ever overtook an older one |
| HostOrder.AuditIsThePtyLog | internal/host/host.go:139-142 | with nothing on its way, audit trail and PTY log are equal, in order, if and only if every entry was written in its turn |
| HostOrder.AuditCanBeOutOfOrder | internal/host/host.go:307-308 | a run of the model in which the keyboard overtakes a guest, and the two logs differ in order |
| HostOrder.KeystrokesStayInOrder | internal/host/local.go:107-114 | of one guest's frames that are applied without a vote, the earlier taken reach the PTY first |
| HostProofs.NoFrameTwice | internal/host/host.go:173-181 | no frame is written twice, neither directly nor by way of a proposal |
| HostProofs.EveryVoteIsGenuine | internal/host/host.go:184-189 | every vote the multisig sees in a run was cast by the guest connected under the name it counts for, with that name sealed in it, or by the host |
| HostProofs.WriteIs | internal/host/host.go:175-181 | the callback holds a supervised guest's keystrokes, bytes and author unchanged, and audits all others', and does nothing else |
| HostProofs.ActIs | internal/host/multisig.go:149-157 | a decided vote audits the bytes under the author it decided on |
| HostProofs.DepartedStayAsTheyWere | internal/session/registry.go:88-97 | a guest taken off the list keeps name and permission for the frames that still come in |
| HostModel.Host.Record | internal/host/host.go:140 | the audit entry: the keystrokes are audited and on their way |
| HostModel.Host.Emit | internal/host/host.go:141 | the write: one entry on its way reaches the PTY, whatever else is on its way |
| HostModel.Host.ApplyInput | internal/host/host.go:139-142 | both, one after the other: what others have on their way stays there |
| HostModel.Host.WriteInput | internal/host/host.go:175-181 | a supervised guest's keystrokes are held and reach neither log; all others' reach both and hold nothing |
| HostModel.Host.OnVote | internal/host/host.go:184-189 | a vote counts only under the name it arrived under, and its input runs exactly when it reached the quorum |
| BookSpec.WorthSplit | internal/arena/book.go:44-48 | the sum over positions does not depend on the order they are taken in |
| BookProofs.DustIsZero | internal/arena/book.go:162-169 | a sell leaves exactly nothing or more than dust, and its proceeds exceed the dollars asked by less than 1e-6 bids |
| BookProofs.BuyCostsHalfSpread | internal/arena/book.go:147-154 | a buy of usd changes equity by -usd(ask-bid)/(2 ask), all other positions untouched |
| BookProofs.SellCostsHalfSpread | internal/arena/book.go:157-171 | a sell of n changes equity by -n(ask-bid)/2, the dust rule included |
| BookProofs.ApplyCostsHalfSpread | internal/arena/book.go:129-175 | any one order costs the half-spread of its fill, or nothing |
| BookProofs.ExecuteCostsHalfSpreads | internal/arena/book.go:116-178 | any round changes equity by exactly minus the sum of half-spreads, for all quotes |
| BookProofs.TradingNeverCreatesEquityExactly | internal/arena/book.go:119-178 | no account and no orders can gain equity if and only if no tradable quote with a positive bid has its bid above its ask |
| BookProofs.CrossedQuotePays | internal/arena/book.go:157-171 | at a crossed quote there is an account and an order that gain |
| BookProofs.FillsAreClamped | internal/arena/book.go:147-165 | a buy spends at most what was asked and what there is; a sell takes at most what is held and overshoots by less than 1e-6 bids |
| BookProofs.TradesExactlyWhen | internal/arena/book.go:129-175 | which orders trade at all, and that the others change nothing |
| BookProofs.ExecuteKeepsBooks | internal/arena/book.go:119-178 | a round keeps cash non-negative and positions positive, makes at most three trades, and its fills account for every dollar and token |
| BookProofs.RoundsKeepSolvent | internal/arena/book.go:119-178 | any number of rounds at any quotes keeps the account solvent |
| BookRound.SellSizeIs | internal/arena/book.go:162-165 | a sell takes tokens worth exactly the dollars asked for, or the whole position if less than 1e-6 tokens would be left |
| BookRound.ApplyCarries | internal/arena/book.go:129-175 | one order, spelled out on cash and position: which trade, how much moves at which price, that nothing else changes, and why each of the others does not trade |
| BookRound.ExecuteIsRound | internal/arena/book.go:116-178 | a round is a chain of accounts in which the k-th of the first three orders is carried out on what the earlier ones left, its report under its own symbol; the rest change nothing and are counted |
| BookRound.WorthIs | internal/arena/book.go:40-50 | a position counts at the middle of bid and ask, one without a quote counts nothing |
| BookModel.Portfolio.Execute | internal/arena/book.go:119-178 | the loop with its break at the fourth order leaves that chain's last account and its reports |
| BookModel.Portfolio.ExecuteOne | internal/arena/book.go:129-175 | the loop's body carries out one order, as spelled out |
| BookModel.Portfolio.Equity | internal/arena/book.go:42-50 | the accumulating loop, in any order of the map, is cash plus worth at the mid |
| BatchSpec.PlaceIs | internal/hood/hood.go:294-303 | a slot depends on the replies with its own id in this chunk alone, in their order; all other ids are passed over |
| BatchSpec.BigBatchAnswers | internal/hood/hood.go:275-306 | one big batch to a server that answers each id at most once puts every reply in its slot |
| BatchSpec.ChunkedAnswers | internal/hood/hood.go:283-304 | so do chunks of at most 25, with replies in any order |
| BatchSpec.ChunkedEqualsBigBatch | internal/hood/hood.go:271-306 | chunked and unchunked batching give the same slots |
| BatchSpec.ErrorLeavesResultNil | internal/hood/hood.go:273-274 | a slot has a result or an error, and both exactly when an error comes last after an answer to the same id |
| BatchSpec.LastReplyCounts | internal/hood/hood.go:294-303 | of several replies to one id the last decides about the error and the last answer is the result |
| ReadSpec.Words | internal/hood/hood.go:371-388 | data that is accepted splits into at least one word, all of 32 bytes |
| ReadSpec.SplitAt | internal/hood/hood.go:383-387 | word k is bytes 32k to 32k+31 |
| ReadSpec.SignedIsTwosComplement | internal/hood/hood.go:391-397 | the result lies in the signed 256-bit range, equals the word modulo 2^256, and is positive exactly for a non-zero word with its top bit clear |
| Decoding.WordsAre | internal/hood/hood.go:371-388 | data is taken exactly if it is hex of one word or more, and word k is its bytes 32k to 32k+31 |
| Decoding.DecodeRoundIs | internal/hood/hood.go:496-513 | each error exactly in its case, else the signed second word as answer and the low 64 bits of the fourth as update time |
| Decoding.RoundReadsBack | internal/hood/hood.go:496-513 | five encoded numbers are decoded to their answer and update time, and refused exactly when the answer is not positive |
| Decoding.Int64Is | internal/hood/hood.go:511 | the update time is the number in signed 64-bit range that differs by a multiple of 2^64 |
| Decoding.SignedReadsBack | internal/hood/hood.go:391-397 | every number of 256 bits is read back from its two's complement |
| Decoding.DecodeTokenIs | internal/hood/hood.go:515-532 | each error exactly in its case, else the first word of the first reply, and paused exactly when the second reply is data with a first word that is not all zeros |
| Decoding.TokenReadsBack | internal/hood/hood.go:515-532 | an encoded multiplier and flag are decoded to themselves |
| ReadSpec.LayoutIsAligned | internal/hood/hood.go:430-439 | the calls of every feed and token stand where the decoder's running index looks for them |
| Landing.AddressesLand | internal/hood/hood.go:474-492 | an address is among the values exactly if some read of it was good, and in Errors exactly if some read was bad |
| ReadWhole.OneSideExactlyWhenDistinct | internal/hood/hood.go:417-494 | over all servers from which Read returns a Snapshot: every address lands in exactly one of values and Errors, if and only if no address is asked for twice |
| ReadWhole.RepeatedAddressOnBothSides | internal/hood/hood.go:474-492 | for any repeated address there is a server from which Read returns a Snapshot with that address among the values and in Errors |
| Landing.DistinctAddressesKeepAll | internal/hood/hood.go:475-492 | with distinct addresses no entry overwrites another: each gets its own decoding |
| Landing.EachReadsItsOwnCalls | internal/hood/hood.go:474-492 | each feed and token gets the decoding of the replies to its own calls |
| BatchSpec.NoFailureIsPosted | internal/hood/hood.go:291-293 | the first failing chunk ends the batch, and there is none exactly when every chunk can be posted |
| BatchSpec.FirstFailureIs | internal/hood/hood.go:291-293 | the error returned is the one of a chunk before which all were posted |
| BatchModel.Batch | internal/hood/hood.go:275-306 | the posts made carry 1 to 25 calls each and together every call once, in order; the error is that of the first chunk that cannot be posted; else each slot is final |
| BatchModel.PlaceReplies | internal/hood/hood.go:294-303 | the inner loop over replies |
| BatchModel.ReadAll | internal/hood/hood.go:429-494 | which error is returned and when, of the batch, of the first or second call, or of either header, and the snapshot otherwise |
| BatchModel.BuildCalls | internal/hood/hood.go:430-439 | the call-building loops give the layout |
| BatchModel.CollectFeeds | internal/hood/hood.go:474-483 | the feed loop with its running index |
| BatchModel.CollectTokens | internal/hood/hood.go:484-492 | the token loop, two slots a token |
| ReadWhole.ReadPairsEveryAddress | internal/hood/hood.go:427-494 | end to end: through chunks, from a server answering each id at most once in any order, each distinct address gets the decoding of the server's answers to its own calls |
| ReadWhole.ReadReturnsTheRound | internal/hood/hood.go:427-513 | so a feed whose call is answered with an encoded round ends up with that round's answer and update time among the values, or in Errors if the answer is not positive |

## Left out

- Sockets, the PTY, files, HTTP, raw terminal mode, signals and time itself: steps of the environment, ghost logs or parameters.
- Sealing, base64, JSON and hex decoding: frames come opened or as unopenable, results as what the decoders make of them.
- Interleaving inside one write to the screen or inside any other locked region: the mutexes make each a single step.
- The time of the last output and `quietFor` in `internal/agent/screen.go`.
- Audit events, announcements and all texts of the multisig: they follow the unlock, and no order is promised for them.
- MultisigModel.Multisig.Vote: takes the number as parsed or not parsed; `strconv.Atoi` and the trimming of the text are not modelled.
- MultisigModel.Multisig.PendingList: gives the proposals by number without the sorting and layout of the text.
- HostModel.Host.OnVote: takes the vote as decoded or not decodable; the notice about a vote not counted is not modelled.
- HostModel.Host.ApplyInput: the class runs it without others in between; what others do in between is in `HostSpec`. One write to the PTY is one step, and failing writes are not modelled.
- Relayed sessions from end to end: `HostSpec` is a local one; with a relay all guests share one reading goroutine, which allows fewer interleavings.
- AnswersModel.Answers.Receive: which ready branch a `select` takes is up to the environment; the wait for 90 seconds is the step that expires it.
- The order of guests in lists of text, join times, and the sending in broadcasts: a failed send is the event of leaving.
- Gate.GateSafeExactly: a host stops waiting only after the relay has carried the call out; a call given up on while still on its way, and a late result that reaches the next call, are not modelled.
- The relay's own session table, registration and join URLs in `internal/relay/relay.go`.
- Rounding: the book is exact over `real`; `money`, the text of fills, holdings lists and notes are not modelled.
- BookModel.Portfolio.ExecuteOne: takes symbol and side already trimmed and folded.
- ReadSpec.DecodeRound: keeps a price as answer and decimals, and a multiplier as a whole number of 1e-18, instead of a float.
- BatchModel.Batch: `post` with its retries is one function of the chunk, and a hard failure's error is its text.
- BatchModel.ReadAll: of the block only number and time are kept, as the decoder gives them; the base fee is not.
- Sanitizers, prompts, rendering, recording and replay, the web client and the desk's layout: their claims are easy next to these.
