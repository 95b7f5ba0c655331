# Verified models of Taylor UUCP's cu

Dafny models of the algorithms in the Taylor UUCP sources that `cu` is built from, with proofs of
what they are for. Each module follows one part of the sources; `dafny verify dfyconfig.toml` checks
all of them.

- `LockProtocol.dfy`: the lock-file protocol of `unix/lock.c` as a step system. Any number of
  processes run lock and unlock on one path, one system call at a time; they may crash between any
  two calls. Six design choices and assumptions are switches, and mutual exclusion is shown to hold
  exactly when all of them are on.
- `TreeWalk.dfy`: `unix/ftw.c`, a walk with a bounded number of open directories, against the plain
  recursive preorder.
- `Getopt.dfy`: `lib/getopt.c` in its three orderings and with long options, against a scan that does
  not permute.
- `Register.dfy`, `Crc.dfy`: the table-driven CRC-32 of `lib/crc.c` against the bit-serial shift
  register of section 8.1.1.6.2 of ITU-T V.42 (without the final complement), and what it detects.
  Registers are 32 bits, values eight hexadecimal digits.
- `Escape.dfy`, `Command.dfy`, `CommandParser.dfy`: spool commands as text. `Command` has the printer
  and the parser as functions and their round trip; `Escape` and `CommandParser` have the loops that
  work in place on the line, proved against those functions. Strings are sequences of characters
  below 256, C strings what precedes the NUL.
- `Connection.dfy`, `Ring.dfy`: reading and writing a connection (`unix/serial.c`), the circular
  receive buffer (`prot.c`) and its drain (`unix/cusub.c`). What the system calls answer is an
  arbitrary finite list; when it is used up, a quit signal has arrived.
- `Handshake.dfy`: the stop/start handshake of `unix/cusub.c` as a step system of two processes,
  signals and a pipe.
- `Transfer.dfy`: the receive loop of `icutake` and `fcusend_buf` in `cu.c`. What the port delivers is
  an arbitrary finite list; when it is used up, the time is over.
- `Work.dfy`: the work queue of `unix/work.c` and the grade order of `uuconf/grdcmp.c`.
- `Arena.dfy`: the allocator of `uuconf` with its blocks, lists and rollback.
- `Names.dfy`: the sequence number, base 62 and the retry loops of `unix/filnam.c`.
- `ErrorString.dfy`: the truncating formatter of `uuconf/errstr.c`.
- `Wrappers.dfy`: the option type.

The configuration is `SPOOLDIR_TAYLOR`, HDB lock files with the process ID as text, `USE_STDIO`, POSIX
termios, `HAVE_SELECT`, `HAVE_UNBLOCKED_WRITES`, system calls that a signal interrupts, and the C
locale.

Two operations do what they are for only under a condition that their callers have to keep:
`uuconf_add_block` must not be given a buffer that the arena has already (`Arena.AddAndFree`), and
`fsysdep_get_work_init` must not be called while a used name comes after an unused one
(`Work.WorkQueue.GetWorkInit`).

Where the code and its documentation disagree, the model follows the code:

- `unix/lock.c:414-415` gives the final comparison only as a guard against other programs. It is
  needed for exclusion among the processes that follow the protocol (`LockProtocol.UnlinkedInodeRace`).
- `unix/cusub.c:444-448` says that resending takes care of the races in the child. It takes care of
  signals that are lost, not of signals that overtake each other (`Handshake.StopOvertakesStart`).
- `unix/ftw.c:175` promises a call for every element of a tree. The walk of "/" sets its length to 0
  and breaks off when it has to reopen the empty path (`TreeWalk.RootWalkRightIffHarmless`).
- `lib/getopt.c:194-197` gives the first character of the options a meaning of its own. Only the first
  call steps over it (`Getopt.ModeCharIsOption`, `Getopt.ModeCharIsReturned`).
- `lib/parse.c:194-197` says that it does not hurt to lose the size after `dummy`. An E command also
  loses its text (`Command.DummyIsNotRecovered`).
- `cu.c:1965-1968` says that after a newline `*zCuvar_echonl` is looked for. The loop compares with the
  character that was sent (`Transfer.NewlineCheckAsDocumented`).
- `uuconf.h:943-950` says that the message is truncated if the result is less than the size of the
  buffer. It is truncated if the result is greater (`ErrorString.CutIffTooLong`).

## Model

| member | source | states |
|---|---|---|
| `LockProtocol.ExclusionIffStrict` | unix/lock.c:211-540 | Over all runs of any number of processes, with crashes, at most one live process is between a successful lock and its unlock, if and only if the inode check is made, the write follows the read within five seconds, the sleep is full, no error comes after the write, the file is writable and process IDs are fresh |
| `LockProtocol.MutualExclusion` | unix/lock.c:382-415 | With all six conditions no reachable state has two holders |
| `LockProtocol.HolderIsNamed` | unix/lock.c:487-530 | In every reachable state the path names a file that holds the process ID of whoever holds the lock |
| `LockProtocol.StepInv` | unix/lock.c:211-540 | The timing argument as an invariant: every system call of every process keeps it |
| `LockProtocol.ReadInv` | unix/lock.c:256-321 | The first read keeps it; one's own process ID in the file means that the link succeeded |
| `LockProtocol.WriteInv` | unix/lock.c:429-452 | The write over a stale process ID keeps it |
| `LockProtocol.WakeInv` | unix/lock.c:454-487 | The second read, five seconds later, keeps it: whoever still finds its process ID is alone |
| `LockProtocol.StatInv` | unix/lock.c:493-532 | The comparison of path and descriptor keeps it: only the file the path names counts |
| `LockProtocol.KillInv` | unix/lock.c:323-339 | Asking whether the owner lives keeps it |
| `LockProtocol.LiveStrangerKeepsLock` | unix/lock.c:323-339 | The lock file of a running program that is none of the modelled processes stays as it is in every run of every configuration, and nobody gets the lock |
| `LockProtocol.GivesUpOnlyOnLiveOwner` | unix/lock.c:211-540 | A process gives up only after an error or when the process named in the lock file exists; who finds the file gone or loses a race goes round again |
| `LockProtocol.LinkInv` | unix/lock.c:211-231 | The atomic link keeps it |
| `LockProtocol.UnlockInv` | unix/lock.c:568-597 | An unlock by a holder keeps it |
| `LockProtocol.StaleLockCanBeBroken` | unix/lock.c:364-396 | From every reachable state whose lock file names no live process, an idle process can go on to acquire the lock while the others stand still |
| `LockProtocol.LateWriteRace` | unix/lock.c:405-407 | A write later than five seconds after the read gives two holders |
| `LockProtocol.ShortSleepRace` | unix/lock.c:454 | A sleep cut short gives two holders |
| `LockProtocol.LateErrorRace` | unix/lock.c:456-472 | An error after the write leaves the process ID behind, and the next try takes the lock for its own: two holders |
| `LockProtocol.RemoveRace` | unix/lock.c:416-427 | The branch for unwritable files gives two holders |
| `LockProtocol.ReusedPidRace` | unix/lock.c:302-321 | A process that is given the process ID of the stale lock gives two holders |
| `LockProtocol.UnlinkedInodeRace` | unix/lock.c:414-415 | Without the final comparison a breaker that holds an unlinked inode is a second holder |
| `TreeWalk.Walker.Ftw` | unix/ftw.c:177-254 | For every static tree, callback and number of descriptors: the calls and the result are those of the plain preorder cut at the first nonzero return, for "/" those of the reference that loses its slot, and no directory stays open |
| `TreeWalk.RootWalkIsRight` | unix/ftw.c:152-159 | The walk of "/" is the plain one if no directory is as many levels below it as there are descriptors; if there is one, a walk that should have succeeded fails, because the empty path is opened again |
| `TreeWalk.RootWalkRightIffHarmless` | unix/ftw.c:152-159 | The walk of "/" is the plain one for every callback if and only if an error ends it before a directory takes the slot of "/", or comes just behind the subtree that does |
| `TreeWalk.RootWalkFails` | unix/ftw.c:238-240 | With one descriptor and one empty directory in "/" all calls are made and -1 is returned |
| `TreeWalk.Walker.FtwDir` | unix/ftw.c:59-173 | One level of the walk: from a directory stream at position got, the rest of the visit, although deeper levels may take the stream away |
| `TreeWalk.Walker.Reopen` | unix/ftw.c:152-167 | A reopened directory is read forward to where the stream had been; only the empty path cannot be reopened |
| `TreeWalk.Walker.Opendir` | unix/ftw.c:113-127 | A directory is opened only where a slot is free, so never more than the given number are open |
| `TreeWalk.Walker.Enter` | unix/ftw.c:133-147 | The walk below an entry, and the closing of its slot |
| `TreeWalk.Walker.VisitEntry` | unix/ftw.c:81-150 | One entry: the call for it, its flag and what lies below it, with the own stream there again or, for "/", -1 if the slot has been taken |
| `TreeWalk.CutAtFirstNonzero` | unix/ftw.c:149-150 | What the reference makes of a callback: exactly the calls up to the first nonzero return, which is the result |
| `TreeWalk.WalkIsComplete` | unix/ftw.c:75-150 | A walk that no error ends has the call, with its flag, for the start and for every entry of every directory called, but "." and ".."; an error ends it only where a directory cannot be read to its end, a path is too long or stat or opendir fails |
| `TreeWalk.WalkCallsEntries` | unix/ftw.c:84-133 | Every call is for the start or for an entry other than "." and ".." of a directory that was called |
| `TreeWalk.VisitIsCut` | unix/ftw.c:59-173 | The recursion that calls as it goes equals the plain preorder, listed first and then cut |
| `TreeWalk.WalkIsCut` | unix/ftw.c:232-241 | The same for a whole walk |
| `TreeWalk.WalkOfRootIsCut` | unix/ftw.c:238-240 | The same for a walk of the root, whose entries are named without a doubled slash |
| `Getopt.ScanAll` | lib/getopt.c:222-334 | Calling until EOF, in each of the three orderings: the options returned are those of a scan that does not permute, the argument vector ends up as its options in order followed by its other elements in order, and optind is the first of those |
| `Getopt.Scanner.Next` | lib/getopt.c:222-530 | One call returns the next option of that scan or EOF, with the vector permuted as far as it has been scanned |
| `Getopt.Scanner.NextElement` | lib/getopt.c:256-334 | With no characters left: an option element is begun, a non-option is returned in order, or the scan ends, at once if options may not follow non-options |
| `Getopt.Scanner.Exchange` | lib/getopt.c:140-164 | The block exchange in place, by copies that may overlap, swaps the two blocks and keeps everything else |
| `Getopt.Scanner.PutOptionsFirst` | lib/getopt.c:262-268 | Options processed since the last non-option move in front of the skipped non-options |
| `Getopt.Scanner.SkipOthers` | lib/getopt.c:270-281 | Non-options are passed and join those skipped before |
| `Getopt.Scanner.PassDashes` | lib/getopt.c:284-300 | -- goes with the options, the rest of the vector with the others |
| `Getopt.Scanner.EndScan` | lib/getopt.c:302-312 | At the end optind backs over the non-options |
| `Getopt.Scanner.TakeOption` | lib/getopt.c:333-529 | One option, long or short, with the elements it uses |
| `Getopt.Scanner.FindLong` | lib/getopt.c:352-377 | The loop over the long options finds what the rule says |
| `Getopt.FindObeysRule` | lib/getopt.c:203-206 | The rule: an exact match wins, otherwise the only abbreviation, otherwise none or ambiguous |
| `Getopt.LongOptionWithValue` | lib/getopt.c:388-437 | A long option, perhaps abbreviated, with "=" and a value returns its code or 0, that value and its index, and an error if it takes none |
| `Getopt.LongOptionAlone` | lib/getopt.c:388-437 | Without "=", the argument is the next element if one is required, and otherwise there is none |
| `Getopt.LongOptionUnknown` | lib/getopt.c:378-465 | An unknown or ambiguous word behind "--" is an error |
| `Getopt.LongOnlyWord` | lib/getopt.c:441-465 | With long_only an unknown word behind one dash is a short option if it begins with one, and else an error as a whole |
| `Getopt.ShortOption` | lib/getopt.c:468-529 | A short option returns its character, with the rest of the element or the next element as its argument as the colons behind it say |
| `Getopt.ShortOptionUnknown` | lib/getopt.c:474-491 | A character that is no option is an error, and the rest of the element follows |
| `Getopt.ElementReturns` | lib/getopt.c:222-529 | A call at an element returns what the element means, and the next call begins behind what it takes |
| `Getopt.NonOption` | lib/getopt.c:314-328 | A non-option is returned as the argument of code 1 if the options start with -, ends the scan if they start with + or POSIXLY_CORRECT is set, and goes behind the options otherwise |
| `Getopt.ScanSorts` | lib/getopt.c:166-182 | A scan keeps the order within the options and within the others, and drops and invents nothing |
| `Getopt.ScanPermutes` | lib/getopt.c:180-182 | What it leaves is a permutation of what it was given |
| `Getopt.ModeCharIsOption` | lib/getopt.c:240-256 | The first call and a later one decode differently if and only if the character that chose the ordering comes up as a short option, which with long_only is also one that is no long option, and the colons behind it do not happen to give the same result |
| `Getopt.ModeCharIsReturned` | lib/getopt.c:240-256 | The options "-a" and the element "-a-" return the options a and - |
| `Getopt.ExchangeTidies` | lib/getopt.c:131-138 | An exchange puts every option seen so far in front of every non-option seen so far |
| `Crc.Icrc` | lib/crc.c:95-109 | The unrolled loop computes, for every length, the bit-serial shift register over the bits of the message |
| `Crc.TableIsShifts` | lib/crc.c:49-82 | Each of the 256 entries of the table is eight shift/xor operations on its index |
| `Crc.UpdateIsSerial` | lib/crc.c:92-93 | One table step equals the eight bits of the character fed one by one |
| `Crc.CrcIsSerial` | lib/crc.c:95-109 | The byte fold refines the shift register on every message |
| `Crc.CrcAppend` | lib/crc.c:95-109 | The value for a message in two parts is that of the second part started with that of the first |
| `Crc.BurstsAreDetected` | lib/crc.c:45-109 | Two messages of one length whose bits differ only within 32 consecutive ones have the same value only if they are equal |
| `Register.LongerBurstEscapes` | lib/crc.c:49-49 | 33 is too many: the polynomial itself is a difference that goes unseen in every message |
| `Register.WindowDetected` | lib/crc.c:36-40 | The register never gives two different inputs of at most 32 bits the same result |
| `Register.SerialIsLinear` | lib/crc.c:36-40 | The difference of two runs is the run of their difference |
| `Register.SerialIsInjective` | lib/crc.c:36-40 | Different registers stay different under the same input |
| `Register.EightAtOnce` | lib/crc.c:92-93 | Eight bits at once: what a table-driven step relies on |
| `Escape.QuoteCommandString` | lib/quotes.c:37-68 | The quoted string is written into a buffer of 4n+1 characters, which always suffices |
| `Escape.QuoteFixes` | lib/quotes.c:44-66 | Exactly the strings with nothing to quote, no backslash and, unless only backslashes count, graphic characters only, come through quoting unchanged |
| `Escape.Cescape` | lib/escape.c:10-97 | In place, the result of unquoting replaces the string, ended by a NUL, and nothing outside it changes |
| `Escape.NextRound` | lib/escape.c:17-92 | A round of the loop: the write position stays at or behind the read position |
| `Escape.DecodeSequence` | lib/escape.c:25-89 | One escape sequence, never reading past the terminating NUL |
| `Escape.DecodeHex` | lib/escape.c:67-83 | A hexadecimal number of any length, of which the low eight bits count |
| `Escape.LetterMeans` | lib/escape.c:27-53 | What a backslash and a letter mean |
| `Escape.OctalMeans` | lib/escape.c:54-66 | A digit and up to two octal digits are one octal number modulo 256 |
| `Escape.HexMeans` | lib/escape.c:67-85 | x and any hexadecimal digits are their number modulo 256 |
| `Escape.PlainMeans` | lib/escape.c:19-53 | Any other character stands for itself, also a backslash at the very end |
| `Escape.UnescapeQuote` | lib/quotes.c:37-68 | Unquoting undoes quoting, in both modes, for every C string |
| `Escape.UnescapeFixes` | lib/escape.c:17-92 | Exactly the strings without a backslash before their last character come through unchanged |
| `Escape.QuotedIsGraph` | lib/quotes.c:56-62 | A quoted string consists of graphic characters |
| `Command.RoundTrip` | lib/parse.c:46-248 | Reading the printed line of a command gives the command back (with q among its options if it was quoted) if and only if: the mode is not 666 or 777 in decimal, an E command has a notify field other than dummy and no newline in its text, and the reader unquotes only strings that were quoted or have no backslash before their last character |
| `Command.FileRoundTrip` | unix/splcmd.c:72-121 | Reading the lines of a spool file gives back every such command, in order |
| `Command.SpoolCommands` | unix/splcmd.c:72-121 | The loop writes the lines of all commands, or nothing if one of them has an unknown type |
| `Command.DummyIsNotRecovered` | lib/parse.c:194-207 | An E command whose notify field is dummy is never read back |
| `Command.TextBack` | lib/quote.c:100-101 | The text of an E command comes back exactly if it has no newline and, when strings are unquoted, no backslash before its last character |
| `Command.FieldBack` | lib/quote.c:70-97 | A field comes back exactly if it was quoted when it is unquoted, or has no backslash before its last character |
| `Command.StrtolOctal` | unix/splcmd.c:90-92 | strtol reads printed octal digits back, for every nonnegative long |
| `Command.StrtolSigned` | lib/parse.c:174-174 | Decimal numbers of any length are read, with a sign, and clamped |
| `Command.StrtolHex` | lib/parse.c:174-174 | So are hexadecimal ones |
| `Command.StrtolPadded` | lib/parse.c:174-174 | White space and a plus sign may stand in front |
| `Command.ModeRoundTrip` | lib/parse.c:174-176 | Every mode, an unsigned int, comes back from its printed octal digits through long, int and unsigned int |
| `Command.TokenIs` | lib/parse.c:51-51 | strtok finds a printed word and leaves what follows its blank |
| `Command.PrintedIsLine` | unix/splcmd.c:87-106 | A printed command is one line |
| `Command.TokenFound` | lib/parse.c:51-51 | strtok finds the first longest run of characters other than blanks, and leaves what follows the blank behind it; none only if all are blanks |
| `Command.BlanksSeparate` | lib/parse.c:100-100 | Words are separated by spaces, tabs and newlines |
| `Command.HangupLines` | lib/parse.c:78-96 | H, HY, HN and P are the hangup, its two answers and the poll |
| `Command.RefusedLetter` | lib/parse.c:55-99 | Any other letter, or one with something behind it, is refused |
| `Command.RequestWithSize` | lib/parse.c:126-139 | A request may end with a size; what is no number is no size |
| `Command.RequestWithPosition` | lib/parse.c:140-161 | A request with dummy takes the fifth word as the position |
| `Command.SendWithSize` | lib/parse.c:171-211 | A send request takes decimal 666 and 777 for octal, and a notify field and a size |
| `Command.ExecutionWithText` | lib/parse.c:189-222 | An execution takes notify, perhaps dummy and a word, a size and the rest of the line as its text |
| `CommandParser.Parser.FparseCmd` | lib/parse.c:46-227 | The parser that cuts the line in place and unquotes the fields where they are: it succeeds exactly when the line is a command, and its pointers then point to the fields of that command |
| `CommandParser.Parser.Strtok` | lib/parse.c:100-118 | strtok cuts off the next word, which becomes a field behind the earlier ones, all of which stay |
| `CommandParser.Parser.TakeText` | lib/parse.c:215-220 | The rest of the line up to its newline becomes the last field |
| `CommandParser.Parser.UnquoteField` | lib/parse.c:238-247 | Unquoting a field in place leaves all other fields alone |
| `CommandParser.Parser.Ulunquote` | lib/parse.c:232-248 | If q is among the options, the five strings are unquoted and the others are not |
| `CommandParser.Parser.FparseSize` | lib/parse.c:126-160 | The size or restart position of a request |
| `CommandParser.Parser.FparseMode` | lib/parse.c:171-187 | The mode must be a number |
| `CommandParser.Parser.FparseNotify` | lib/parse.c:189-199 | The notify field, and the word that some systems put after dummy |
| `CommandParser.Parser.FparseBytes` | lib/parse.c:201-222 | The size and the command text, which an E command must have |
| `Connection.Conn.Io` | unix/serial.c:2006-2355 | Whatever the system calls answer, a prefix of the input has been sent and the bytes received are stored in order and counted; on success everything is sent or the read buffer is full; it fails only if its last call was a setting refused, a read or write that failed, or the tenth timed write in a row to take nothing, or if a quit signal came, and none of this happened before |
| `Connection.Conn.Wait` | unix/serial.c:2176-2353 | When nothing can be written, at most one byte is, and it is accounted for; if select is answered or interrupted, none |
| `Connection.Conn.ReadSome` | unix/serial.c:2083-2116 | An unblocked read is repeated when interrupted, and that nothing is there is no failure |
| `Connection.Conn.WriteAll` | unix/serial.c:1914-1984 | A prefix is sent, and on success all of it, once and in order; no write failed before the last, and the call fails only if that one failed or was the tenth in a row to take nothing, a quit signal came, or the line could not be set to blocking |
| `Connection.Conn.ReadAtLeast` | unix/serial.c:1626-1897 | The bytes received are stored in order; the call ends with as many as were asked for, when the time is over, on a quit signal, when a setting is refused, or when the line is hung up, fails or finds nothing three times in a row; on a line that is no terminal no read is begun after the alarm has come with an earlier one |
| `Connection.Conn.NeedMin` | unix/serial.c:1677-1725 | A terminal is told to wait for as many characters as are still needed, at most 127 |
| `Connection.Conn.ReadInto` | unix/serial.c:1738-1812 | One read: its bytes go behind the earlier ones, and the reads counted so far tell whether the line is down |
| `Ring.Prot.SendData` | prot.c:56-90 | Everything is sent once and in order, what arrives meanwhile is queued, at most two calls of fconn_io and one of fconn_write are made, the latter when the buffer is full, and it fails only if the last of these did or a quit signal came |
| `Ring.Prot.SendSome` | prot.c:62-87 | A call that does not send everything fills a contiguous stretch of the buffer |
| `Ring.Prot.ReceiveData` | prot.c:101-135 | What was queued stays in front; as many bytes arrive as were asked for and fit, or the time is over; NoRoom exactly when the buffer is full, Failed only if reading did |
| `Ring.Prot.ReceiveChar` | prot.c:148-166 | The first byte of the queue if there is one, and the buffer is never found full; -1 only when the time is over, -2 only if reading failed; on timeout nothing is lost |
| `Ring.Prot.Drain` | unix/cusub.c:231-260 | The queue is written to the terminal in order and is empty on success; on failure a prefix of it was written, and the last write took nothing |
| `Ring.Enqueued` | prot.c:86-86 | Bytes stored in the room at the end join the queue, across the end of the array |
| `Ring.Dequeued` | prot.c:163-164 | A stretch at the start leaves the queue at its head |
| `Ring.Queue` | prot.c:44-48 | Start equals end exactly when the queue is empty, and it never holds CRECBUFLEN bytes |
| `Ring.FilledStretch` | prot.c:66-73 | Filling the room leaves one stretch fewer, and there are at most two |
| `Handshake.ObeysIffInOrder` | unix/cusub.c:444-448 | Over all runs: after a call that returned TRUE the child is in the mode asked for, and after a stop it writes nothing until the next call, if and only if signals are delivered in the order in which they were sent |
| `Handshake.InOrderObeys` | unix/cusub.c:450-504 | In-order delivery suffices, although signals may be merged or lost and replies may be left over in the pipe |
| `Handshake.StopOvertakesStart` | unix/cusub.c:536-548 | A stop that overtakes an earlier start is confirmed, and the child starts again |
| `Handshake.ResendingSucceeds` | unix/cusub.c:425-442 | From every reachable state in which the child lives and the parent waits, with signals in order or not, resending can bring the awaited reply, whatever was lost or overtaken |
| `Handshake.StepInv` | unix/cusub.c:612-726 | Every step of parent and child keeps replies, mode and signals in the order in which they arose |
| `Handshake.ChildInv` | unix/cusub.c:626-664 | So do the steps of the child, in spite of the race between reading and clearing the signal |
| `Handshake.NothingShown` | unix/cusub.c:666-695 | A stopped child shows nothing |
| `Handshake.NothingLost` | unix/cusub.c:666-722 | As long as nobody asks for a stop, every character read is shown or kept to be shown, whatever signals come |
| `Handshake.CopyingGoesOn` | unix/cusub.c:626-696 | A child that is not stopped comes to write what it has, or else to read |
| `Transfer.Take` | cu.c:1757-1829 | For every stream and end marker: on completion the file is the text before the first occurrence of the marker, without carriage returns unless in binary mode; on timeout it is all the text; on a signal all but the window |
| `Transfer.Window` | cu.c:1799-1828 | A byte enters the window, whose index stays in its buffer; a full window is the marker or gives up its first byte |
| `Transfer.Held` | cu.c:1801-1826 | The window misses no occurrence |
| `Transfer.TextIs` | cu.c:1786-1789 | Binary mode keeps every byte, the other mode all but the carriage returns |
| `Transfer.Sender.SendBuf` | cu.c:1863-2052 | On success what was sent since the last kill character is the translation of the whole buffer, and all its characters that are to be echoed came back in order among the bytes heard since then; the line is killed at most one time fewer than cCuvar_resend says, never in binary mode, and only if an echo was missed; otherwise a quit signal came, the port failed, or an echo was missed and the line cannot be killed again |
| `Transfer.Sender.SendChunk` | cu.c:1910-2046 | A chunk is sent translated, and the round ends as the wait for the echo of its checked characters does |
| `Transfer.Sender.CheckEcho` | cu.c:1965-2046 | The echo check waits for each printable character and for each newline sent |
| `Transfer.Sender.AwaitEcho` | cu.c:1993-2041 | Bytes are skipped until the awaited one comes or the time is over |
| `Transfer.AwaitAllWithin` | cu.c:1993-2041 | What a successful wait has waited for is a subsequence of the bytes it has read |
| `Transfer.Sender.Translate` | cu.c:1929-1953 | A chunk is translated into the send buffer |
| `Transfer.TranslationFits` | cu.c:1876-1880 | The send buffer is never overrun |
| `Transfer.ChunkLength` | cu.c:1910-1927 | A chunk is a newline, or up to 64 characters before one |
| `Transfer.TranslationAppend` | cu.c:1929-1953 | The translation does not depend on the chunks |
| `Transfer.TranslatedIs` | cu.c:1929-1953 | Which characters are sent as they are, as the end of a line, behind the prefix, or not |
| `Transfer.NewlineCheckAsDocumented` | cu.c:1980-2041 | The check of what was sent is the documented one, which looks for echonl after a newline, if and only if that is the character that was sent, or no newline was sent, or none is to be checked |
| `Work.GradeOrderIsCharOrder` | uuconf/grdcmp.c:41-73 | On legal grades the comparison is the order of the characters |
| `Work.NamesInOrder` | unix/work.c:402-403 | Names in order have their grades in order |
| `Work.GradesInOrder` | unix/work.c:402-407 | Within a scan commands are handed out in the order of their grades |
| `Work.SortKeepsUsed` | unix/work.c:307-316 | Sorting the whole array keeps the used names in front exactly if they all come before the unused ones |
| `Work.WorkQueue.GetWorkInit` | unix/work.c:271-410 | New files of the wanted grades join the queue, all of them if there is no limit, no name is queued twice, the names to come are sorted, and a used name comes again if and only if it was not before all the unused ones |
| `Work.UsedAgain` | unix/work.c:307-316 | For any two names, a scan that takes the greater one, a second that finds the smaller one and a third one put the greater one next again |
| `Work.Collect` | unix/work.c:345-389 | The entries that are wanted and not yet known |
| `Work.WantedIs` | unix/work.c:175-181 | A wanted entry is C., a legal grade not after the one asked for, and the rest of the name |
| `Work.Bsearch` | unix/work.c:362-366 | The search in the sorted prefix finds a name exactly if it is there |
| `Work.WorkQueue.GetWork` | unix/work.c:420-584 | The names are used up in order, the files that can be opened are read with just the lines they contain, or P for none; every line taken that is not returned cannot be parsed, no line is handed out twice, a failure is that of a line whose temporary file cannot be named, and H comes only when all files are used up |
| `Work.WorkQueue.OpenNext` | unix/work.c:440-529 | The next file that can be opened is read, with just its lines, and those before it cannot be opened |
| `Work.WorkQueue.TakeLine` | unix/work.c:547-581 | A line is taken, and handed out, skipped as bad, or left without a name for its temporary file |
| `Work.WorkQueue.DidWork` | unix/work.c:596-647 | The command file is removed exactly when all its lines have been taken and every one that could be parsed is done, and never twice |
| `Work.NoneOut` | unix/work.c:622-630 | No line marked as out means that all commands of the file are done |
| `Arena.Malloc` | uuconf/alloc.c:38-79 | A NULL block means malloc. Otherwise the region is aligned, long enough and apart from every region in use, also in an oversize block, and no other region or list changes; the chain grows only if no block has room, and there is no region only if then malloc fails or nothing was asked for |
| `Arena.FindRoom` | uuconf/alloc.c:53-57 | The first block with room, or the last one |
| `Arena.Extend` | uuconf/alloc.c:59-70 | A new block of sufficient size ends the chain |
| `Arena.Block.Take` | uuconf/alloc.c:74-76 | A region is cut off at the end of what is used, which stays inside the buffer |
| `Arena.Free` | uuconf/free.c:43-65 | A region in use goes out of use; its block rolls back exactly if it was the last one handed out, and a stale plast does no harm, nor does a pointer that is NULL, out of use or foreign; for a NULL block the pointer goes to free |
| `Arena.RegionsApart` | uuconf/alloc.c:74-78 | Any two regions in use are inside their buffers, aligned and disjoint |
| `Arena.AddBlock` | uuconf/addblk.c:38-53 | The buffer is put in front of all those the chain will release, the list node is a region of the arena, all regions stay, a block added to the chain is new, and the buffers stay different if and only if this one was not there |
| `Arena.Merge` | uuconf/mrgblk.c:36-47 | The chains are joined in order with their regions and lists unchanged, and the buffers of both are different if and only if they were and the chains have none in common |
| `Arena.FreeBlock` | uuconf/freblk.c:38-61 | All the buffers of the chain and then every block are given to free, nothing twice if and only if the buffers are different |
| `Arena.AddAndFree` | uuconf/addblk.c:38-53 | Whatever buffers are added one after the other, releasing the arena frees nothing twice if and only if they differ from each other and from those that were there |
| `Arena.AddedTwice` | uuconf/freblk.c:46-51 | A buffer that is added twice is freed twice |
| `Arena.FreeList` | uuconf/freblk.c:49-50 | The nodes of a list are read while their blocks are still there |
| `Arena.FreeChain` | uuconf/freblk.c:53-60 | No block is read after it was released |
| `Names.Increment` | unix/filnam.c:276-290 | The loop over the digits in place |
| `Names.SuccIsPlusOne` | unix/filnam.c:276-290 | One more modulo 36 to the number of digits, whatever was in the file |
| `Names.SeqDigitIsPlace` | unix/filnam.c:76-77 | The value of a character is its place among the characters |
| `Names.Sequence.FscmdSeq` | unix/filnam.c:260-297 | The number returned is the one written to the file: the successor of what was read, or of 0000 |
| `Names.Sequence.ZsfileName` | unix/filnam.c:335-382 | The loop ends with the first number whose name is not taken |
| `Names.SequenceLoopEnds` | unix/filnam.c:335-382 | It ends if fewer names are taken than there are sequence numbers |
| `Names.Usput62` | unix/filnam.c:431-447 | The digits in base 62, right justified, and nothing else of the buffer |
| `Names.Base62IsInjective` | unix/filnam.c:431-447 | Numbers that fit into the digits are told apart |
| `Names.DigitsInOrder` | unix/filnam.c:441-446 | The 62 digits in their order |
| `Names.ZscmdFile` | unix/filnam.c:477-529 | Backward in time to the first moment whose name is not taken |
| `Names.BackOnce` | unix/filnam.c:521-528 | The step back is the predecessor modulo 62 to the sixth |
| `Names.CommandNameIsInjective` | unix/filnam.c:498-504 | Different moments give different names |
| `Names.CommandLoopEnds` | unix/filnam.c:494-529 | The loop ends if fewer names are taken than there are moments |
| `ErrorString.UuconfErrorString` | uuconf/errstr.c:36-212 | For every error, state and buffer size: the longest prefix of the message that fits, ended by a NUL, nothing beyond the buffer, and the full length plus one as the result |
| `ErrorString.Messages` | uuconf/errstr.c:84-112 | The text of each code |
| `ErrorString.Format` | uuconf/errstr.c:46-82 | filename:lineno: message: errno, with the parts that the code asks for and the state has |
| `ErrorString.PrintNum` | uuconf/errstr.c:218-233 | The decimal digits at the end of the buffer, which is large enough |
| `ErrorString.DecimalRoundTrip` | uuconf/errstr.c:225-230 | The digits denote the number |
| `ErrorString.NumberedMessage` | uuconf/errstr.c:113-117 | The text in front of the number fits into the buffer too |
| `ErrorString.Fill` | uuconf/errstr.c:143-209 | The successive copies add up to the prefix |
| `ErrorString.CutIffTooLong` | uuconf.h:943-950 | The message is cut exactly if the result is greater than the size of the buffer |

## Left out

- TreeWalk.Walker.Ftw: a start longer than PATH_MAX, which unix/ftw.c:202-203 copies unchecked into a buffer of PATH_MAX + 1 characters.
- TreeWalk.Walker.Ftw: the tree is static, directories list their entries in the same order each time, and the callback does not change the tree; so the use for removing a tree is not covered.
- Getopt.ScanAll: a further call after EOF, options that change from one call to the next, and the text of error messages.
- LockProtocol.ExclusionIffStrict: single reads, writes and links are atomic, and only holders unlock; the other lock-file formats and the names of lock files are left out.
- LockProtocol.StaleLockCanBeBroken: nothing is claimed about progress while several processes contend.
- Crc.Icrc: bits of the start value above the 32nd, which the first table step drops and an empty message returns.
- Escape.DecodeHex: an int overflows on a long hexadecimal number, which C leaves undefined; the model takes the low eight bits.
- Command.RoundTrip: a NULL notify field of an E command, which the printer passes to printf.
- CommandParser.Parser.FparseCmd: strtok and strtol are library functions and modelled by what they are documented to do; strtol clamps at 64 bits.
- Ring.Prot.ReceiveData: after a failure the bytes of the failing call are lost and nothing is claimed about the ring.
- Handshake.ObeysIffInOrder: nothing is claimed after a call that returned FALSE; the child is in its loop from the start; the pipe is never full; SIGTERM at the end.
- Handshake.NothingShown: counts characters; which of them a write that was interrupted halfway shows again is not modelled.
- Transfer.Sender.SendBuf: times are not modelled, only that some wait for an echo ends; characters above 127 count as not printable.
- Transfer.Take: the fixed command line that asks for the file, and the wait for its newline.
- Work.WorkQueue.GetWorkInit: qsort and bsearch are modelled by an insertion sort and a binary search; after a scan that has moved used names (Work.SortKeepsUsed) nothing more is claimed.
- Work.WorkQueue.GetWork: pointers to files and lines are indexes, and freed memory is not modelled; a file whose last line cannot be parsed stays until the next session.
- Arena.Free: no list node is freed, as its callers, who get no pointer to one, cannot.
- Arena.Merge: the two chains have no block in common, without which the result would be a cycle.
- Names.Sequence.ZsfileName: requires that some sequence number is free, without which the loop does not end; locking, reading and writing the sequence file succeed.
- Names.ZscmdFile: requires that some moment is free, without which the loop does not end; times are not negative.
- ErrorString.UuconfErrorString: the text of strerror is given.
- Terminal and termios setup, ioctl, baud rates and hardware flow control: device calls with nothing to prove beyond bit setting.
- fork and exec, mail, logging, installing signal handlers, changing users, permission checks: effects outside the program.
- The other lock, spool and log formats chosen by conditional compilation.
- uuconf's readers of configuration files and its accessors: sources that are not part of this model, or members that are easy.
- `uuconf_cmd_line`, `ustats`, `fsysdep_rmdir`, the options of `main`, help texts and path joining.
