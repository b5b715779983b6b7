# Mailfilter: a verified model

Mailfilter reads the headers of the messages in a POP3 mailbox, judges each message by the user's
rules and deletes the unwanted ones. This project models its five hardest parts in Dafny and proves
what they promise.

- **Command line** (`src/getopt.c`; modules Exchange, LongOptions, OptionScan, OptionString, Getopt,
  CommandLineForms). The re-entrant scanner keeps its place in static variables and permutes the argument
  vector a little in every call. It is proved to refine a pure one-pass reading: same answers, same final
  vector, same final `optind`, for every vector, every table and every option string of the default,
  permuting order. The one-pass reading in turn is proved to be a stable partition and a left inverse of
  writing: the option string, and a command line in the documented forms, errors included, are read as
  what was written.
- **MD5 and APOP** (`src/md5c.c`, `src/apop.cc`; modules Md5Words, Md5Rounds, Md5Transform, Md5, Apop,
  ApopExample). Any way of cutting a message into updates gives the one-shot digest of RFC 1321; the 64
  unrolled lines are the four rounds of section 3.4, and those rounds lose no information. The worked
  example of section 7 of RFC 1939 is computed from the definition.
- **The verdict** (`src/weeder.cc`, `src/preferences.cc`; modules Rules, Verdict, Sums, Scores,
  VerdictLaws, ScoreRange, Weeder, MailboxRun). The nested early-exit loops compute a verdict stated with
  quantifiers and double sums, and that verdict is a decision table in plain terms. From that follow
  independence of order, monotonicity in the rules over whole runs and the behaviour of the memory of
  message-IDs.
- **Header entries and the normalised subject** (`src/header.cc`; modules Normalise, Header).
- **Header text and mailbox scan** (`src/rfc822.ll`, `src/rfc822.yy`, `src/pop3.cc`; modules
  HeaderScanner, HeaderPatterns, HeaderParser, HeaderRoundTrip, Replies, MailboxScan, Accounts, Pop3).
  Scanner rules are languages with longest match, the parser accepts exactly the grammar and ends as its
  first event says, rendered headers are read back. Commands, memory and result of a scan are proved to
  be one function of the server, the settings and the memory before, and that function is explained by
  the verdicts of the run on the messages as the server's replies describe them. Over all accounts, at
  most one copy of a message is kept.

## How to read the model

- `None` from `Getopt.Scanner.Next` is the return of -1. `Event` holds the returned code, `optarg`, a
  changed `optopt`, the row written through `longind` and the value stored through a row's `flag`. A
  null `nextchar` and one at the end of an element are both the empty string. `Scanner.Valid` is what
  has to hold between calls: it also covers calls after the first -1 and a caller that moves `optind`
  back to an element boundary. `OptionScan.Quiet` is the exact condition under which a call answers
  nothing; a further call after the first -1 may answer again (`OptionScan.OperandReadAgain`).
  Characters are non-negative codes.
- `PlanOf` of a scanner's state is all that is still to come: the remaining answers, the final vector
  and the final `optind`. One call takes exactly one answer off the plan and changes nothing else in it.
- MD5 words are 32-bit vectors. The two counter words are numbers below 2^32 with every wrap written
  out. `Context.message` is a ghost field that names the bytes the context stands for. The
  bound `i + 63` of the block loop wraps too. `Fits` is the exact condition under which the loop stops
  at the last complete block: the last block position is at most 2^32 - 64 (`Md5.FitsIff`). Beyond it
  the source reads past the end of its input, so `Fits` is the precondition.
- `regexec` is the parameter `rx`, `rfc822_valid_msgid` the parameter `validId`. Character classes are
  those of the C locale.
- The server is two arbitrary functions: which writes succeed, and what each read delivers. As in the
  source the reply to DELE is not read, so the request written as number w and the reply delivered by
  read k drift apart; `MailboxScan.LookAt` is what one pair of LIST and TOP shows of a message.
- The running total of the scores is an unbounded integer. `ScoreRange.ScoresAreSmall` is the condition
  (lines * rules + 1) * max score < 2^31, and the loops of the score passes carry the invariant that
  under it no value of the total leaves the 32-bit range.
- Strings hold no null character, as C strings do not.
- `MailboxScan.ScanResult.Exited` stands for `exit` in the parser's error function (`src/rfc822.yy:70-75`),
  and `Failed` for `GEN_FAILURE_FLAG`.

## Where the code and its manual page differ

The model follows the code. `man/mailfilterrc.5` promises more in four places:

- MAXLENGTH is said to override ALLOW (lines 141-148). The code asks the allow rules first.
  `Verdict.AllowBeatsMaxLength` is a message for which the promise fails, and
  `Verdict.OverlongDeletedIff` says exactly when it holds.
- MAXSIZE_ALLOW is said to bind every message that matches any ALLOW rule (lines 150-157). A negative
  allow rule skips the size test: `Verdict.NegativeAllowSkipsSize`, `Verdict.OversizedFriendDeletedIff`.
- A message that matches an ALLOW rule is said not to be deleted (lines 63-68). Duplicates and
  oversized friends are: `Verdict.FriendsDeleted` holds one of each, `Verdict.FriendKeptIff` says exactly
  when the promise holds.
- A normalised subject is said to hold only alphanumeric characters (lines 177-185). White space and '@'
  stay: `Normalise.BlankStays` is a subject for which the promise fails, and `Normalise.AlphanumericIff`
  says that it holds exactly for subjects without either.

Three expectations about the code itself hold under a condition, proved in both directions: a long
option's outcome is independent of the table's order exactly when the rows of that very name agree
(`LongOptions.OrderFreeIff`; `LongOptions.OrderMatters` is a table where they do not); more allow
rules turn a kept message into a deleted one exactly when a positive rule newly matches a message above
MAXSIZE_ALLOW (`Verdict.FriendlierDeletesIff`; `Verdict.NewFriendDeleted` is such a message); and a
rendered header is read back exactly when every body starts with a visible character, since the tag rule
swallows white space with the line end (`HeaderRoundTrip.ReadBackIff`;
`HeaderRoundTrip.EmptyBodySwallowsField` is a header where a field is lost).

## Model

| member | source | states |
|---|---|---|
| Getopt.ReadCommandLine | src/getopt.c:465-468 | a fresh scan of any command line gives the answers of the one-pass reading, leaves `argv[0]`, then all option elements with their arguments, then the rest, each in original order, and `optind` at the first of the rest |
| Getopt.Scanner.ReadAll | src/getopt.c:455-468 | from every state between calls the caller's loop ends, and answers, final vector and final `optind` are the ones planned |
| Getopt.Scanner.Next | src/getopt.c:508-1166 | one call takes exactly the first answer off the plan, strictly decreases (elements left, cluster left), keeps the index variables ordered and sets `optarg` and `optopt`; it returns -1 exactly between elements when the first element with option syntax from `optind` on, if any, is `--`, and the call after that starts at `optind` |
| Getopt.Scanner.Begin | src/getopt.c:521-532 | initializing does not change the state the scan starts from |
| Getopt.Scanner.Regroup | src/getopt.c:552-565 | grouping options in front of skipped non-options keeps the planned final layout and the unread elements |
| Getopt.Scanner.SkipNonOptions | src/getopt.c:567-572 | skipping stops at the next element with option syntax and keeps answers and planned layout |
| Getopt.Scanner.TakeEndMark | src/getopt.c:580-591 | `--` joins the options and everything behind it is a non-option, in the planned layout |
| Getopt.Scanner.Advance | src/getopt.c:546-603 | the scan ends with an empty plan, or stops at an option element with the plan unchanged |
| Getopt.Scanner.FindOption | src/getopt.c:546-621 | a cluster in progress is resumed untouched; otherwise the next option element is found and its punctuation skipped |
| Getopt.Scanner.NextLong | src/getopt.c:638-863 | the search loops and branches for a long option give the pure answer, with `=` and separate arguments, `optopt`, and `:` or `?` for a missing argument |
| Getopt.Scanner.NextShort | src/getopt.c:867-1164 | the same for one character of a cluster: invalid, no, required and optional argument, as the letters of the option string say |
| Getopt.Scanner.Decode | src/getopt.c:623-1165 | the mutated state after decoding is the state past what the answer took |
| Getopt.Scanner.DoExchange | src/getopt.c:375-378 | the exchange together with the new positions of the moved block |
| Getopt.DecodingKeepsPlan | src/getopt.c:623-1165 | taking one answer in the middle of a permuted vector removes exactly it from the answers to come and leaves the final vector and `optind` as planned |
| Getopt.DecodingIsSound | src/getopt.c:546-621 | after every answer 1 <= first_nonopt <= last_nonopt <= optind <= argc, an unread cluster is a proper tail of its element, and the lexicographic measure fell |
| Exchange.SwapAdjacent | src/getopt.c:301-373 | the in-place loop swaps two adjacent blocks of any lengths, each in order, and touches nothing else |
| Exchange.LowerBlockPlaced | src/getopt.c:339-355 | swapping a short lower block with the far end reduces the exchange to a smaller one |
| Exchange.UpperBlockPlaced | src/getopt.c:356-372 | the same for a short upper block |
| OptionScan.ScanPartitions | src/getopt.c:462-468 | options (with arguments and `--`) and non-options are a stable partition of the command line |
| OptionScan.QuietIff | src/getopt.c:567-603 | a reading answers nothing exactly when the first element with option syntax, if any, is `--` |
| OptionScan.RestIsQuiet | src/getopt.c:546-603 | when no element is `--`, what a scan leaves over holds only non-options, so a further call returns -1 again |
| OptionScan.OperandReadAgain | src/getopt.c:580-603 | a line whose operand behind `--` is read as an option when the scan is continued |
| OptionString.KindsRead | src/getopt.c:475-479 | an option string written from letters, each alone, with one colon or with two, is read as what it lists: every letter has its kind, and every other character and the colon is no option |
| OptionString.MissingRead | src/getopt.c:518-519 | a leading colon, and nothing else, turns the answer to a missing argument from '?' into ':' |
| CommandLineForms.ReadingInvertsWriting | src/getopt.c:455-492 | for every program and every command line written as operands, clusters with attached, detached, omitted or missing arguments and unknown letters, and long options, abbreviated, unknown, ambiguous, with unwanted or missing arguments, optionally closed by `--` and anything: the answers, their codes and arguments, are what was written and the operands are the rest |
| CommandLineForms.DenotesIsResolve | src/getopt.c:653-679 | a name that denotes a row, by its very name or as an unambiguous beginning, is found |
| LongOptions.FindLongOption | src/getopt.c:653-706 | the loop finds the first exact row; else the first abbreviated row if all abbreviated rows have one effect; ambiguous and unknown in exactly the other cases |
| LongOptions.ResolvesUnique | src/getopt.c:653-706 | that description determines the answer |
| LongOptions.OrderFreeIff | src/getopt.c:653-706 | the outcome is the same for every order of the table exactly when the rows of the typed name agree in effect |
| LongOptions.OrderMatters | src/getopt.c:653-679 | a table of two rows of one name whose outcome changes when they are swapped |
| Md5.HashChunks | src/md5c.c:97-179 | every way of splitting a message into updates gives the RFC 1321 digest of the whole |
| Md5.Context.Update | src/md5c.c:113-150 | after an update the context stands for the longer message: state is the fold over complete blocks, buffer starts with the leftover, counter is the bit length mod 2^64 |
| Md5.Context.Feed | src/md5c.c:129-149 | both branches leave the state of the longer message's complete blocks and its leftover in the buffer |
| Md5.Context.FillAndTransform | src/md5c.c:133-142 | the branch that completes the buffered block leaves the leftover of the whole message at the returned position |
| Md5.Context.Blocks | src/md5c.c:138-139 | the block loop, its bound taken modulo 2^32, absorbs all complete blocks and stops less than a block before the end |
| Md5.Context.Count | src/md5c.c:123-127 | the two counter words move from one bit length to the other mod 2^64 |
| Md5.Context.Final | src/md5c.c:155-179 | the digest of the message is written and the context is wiped |
| Md5.Context.PadLength | src/md5c.c:165-168 | the chosen prefix of the padding table is the padding of RFC 1321, section 3.1 |
| Md5.Context.CountBytes | src/md5c.c:162-163 | the eight length bytes are the bit length of section 3.2 |
| Md5.Context.Init | src/md5c.c:97-107 | a new context stands for the empty message |
| Md5.CopyInto | src/md5c.c:308-317 | the copying loop replaces exactly the addressed bytes |
| Md5.AbsorbAppend | src/md5c.c:133-142 | absorbing a concatenation after whole blocks is absorbing one part after the other |
| Md5.FirstBlock | src/md5c.c:133-136 | leftover and filling together are the next block of the message |
| Md5.CountStep | src/md5c.c:123-127 | the comparison finds the carry of the 64-bit addition, for every length below 2^32 |
| Md5.LowGivesIndex | src/md5c.c:120-121 | the buffer index is the byte total mod 64, also past the wrap of the low word |
| Md5.FitsIff | src/md5c.c:138-139 | with 32-bit arithmetic the loop test is false behind the last complete block exactly for lengths that fit |
| Md5.Padding | src/md5c.c:165-169 | 0x80 and zeros, between 1 and 64 bytes, up to 56 mod 64 |
| Md5.PaddingTable | src/md5c.c:167-169 | both padding cases select that padding from the table |
| Md5Transform.Transform | src/md5c.c:183-270 | the unrolled transformation is the compression function of section 3.4 on the decoded block |
| Md5Transform.Round1 | src/md5c.c:191-207 | the 16 lines are operations 1 to 16 on rotating registers with word i, shift and constant of the standard |
| Md5Transform.Round2 | src/md5c.c:209-225 | operations 17 to 32, with word 5i + 1 mod 16 |
| Md5Transform.Round3 | src/md5c.c:227-243 | operations 33 to 48, with word 3i + 5 mod 16 |
| Md5Transform.Round4 | src/md5c.c:245-261 | operations 49 to 64, with word 7i mod 16 |
| Md5Rounds.StepsAreBijective | src/md5c.c:191-261 | for a fixed block, any number of the 64 operations is a bijection on the four registers, with a two-sided inverse |
| Md5Rounds.OperationCancels | src/md5c.c:191-261 | one operation can be undone and redone, for every shift amount in use |
| Md5Rounds.FSelects | src/md5c.c:60-65 | bit by bit, F is y where x is set and z where it is not |
| Md5Rounds.GSelects | src/md5c.c:60-65 | bit by bit, G is x where z is set and y where it is not |
| Md5Rounds.HIsSymmetric | src/md5c.c:60-65 | H does not depend on the order of its arguments |
| Md5Rounds.HFlips | src/md5c.c:60-65 | every flipped bit flips H, and H of zeros is zero |
| Md5Rounds.IFlips | src/md5c.c:60-65 | I differs from y except where x is unset and z is set |
| Md5.InitialBytes | src/md5c.c:100-106 | the registers start as the bytes of section 3.3 in order |
| Md5.LengthIs | src/md5c.c:162-163 | the length bytes are the low and the high word of the bit count mod 2^64 |
| Md5.CounterIs | src/md5c.c:123-127 | both counter words together are eight times the byte total mod 2^64 |
| Md5Words.Encode | src/md5c.c:275-288 | exactly the first `len` bytes become the little-endian words |
| Md5Words.Decode | src/md5c.c:293-303 | exactly the first `len / 4` words are read from the bytes |
| Md5Words.DecodeEncode | src/md5c.c:272-303 | decoding inverts encoding for any number of words |
| Md5Words.EncodeDecode | src/md5c.c:272-303 | encoding inverts decoding for every length that is a multiple of 4 |
| Apop.LoginDigest | src/apop.cc:48-59 | what is sent is the printed digest of timestamp and password for every greeting that has a timestamp, and nothing for others |
| Apop.ExtractTimestamp | src/apop.cc:52-56 | the text from the first '<' to the first '>' behind it; none exactly when no '<' is followed by a '>' |
| Apop.TimestampUnique | src/apop.cc:52-56 | a greeting has at most one timestamp |
| Apop.GetHash | src/apop.cc:72-84 | 32 hexadecimal digits of the RFC 1321 digest of the concatenation |
| Apop.HexInjective | src/apop.cc:82-83 | different digests print differently |
| ApopExample.ExampleLogin | src/apop.cc:48-59 | for every greeting with the timestamp of the example of RFC 1939, section 7, the digest for its password is the printed one of the standard |
| ApopExample.TimestampIs | src/apop.cc:52-56 | the text between the first '<' and the first '>' behind it, brackets included, is the timestamp of every greeting so built |
| Weeder.Weeder.IsWeed | src/weeder.cc:40-73 | the verdict of the quantified specification, with the duplicate memory before and after |
| Weeder.Weeder.CheckDuplicates | src/weeder.cc:79-112 | 1 exactly for a remembered ID; a new non-empty ID is remembered |
| Weeder.Weeder.CheckAllowRules | src/weeder.cc:117-218 | friend, oversized friend or undecided: some positive rule matches some line, or some negative rule matches none of at least one line |
| Weeder.Weeder.CheckMaxLength | src/weeder.cc:220-250 | 1 exactly when some rebuilt line is longer than the limit taken as unsigned |
| Weeder.Weeder.CheckDenyRules | src/weeder.cc:255-381 | 1 exactly when the size limit, a positive rule on some line or the normalised subject, or an unmatched negative rule denies |
| Weeder.Weeder.DenyLine | src/weeder.cc:280-326 | the inner loop finds a positive rule for the line, or for the normalised subject of a `Subject` entry, if there is one |
| Weeder.Weeder.MatchesNothing | src/weeder.cc:340-375 | the last-element trick succeeds exactly when there is a line and none is hit |
| Weeder.Weeder.CheckScores | src/weeder.cc:385-505 | 1 exactly when the total, rule by rule, reaches HIGHSCORE |
| Weeder.Weeder.ScoreLine | src/weeder.cc:405-435 | one line moves the running total by the scores of the rules that hit it, and with small scores no addition leaves the 32-bit range |
| Weeder.Weeder.ScoreLines | src/weeder.cc:399-436 | the positive pass takes the running total from the size score through every line |
| Weeder.Weeder.ScoreMisses | src/weeder.cc:439-481 | the negative pass takes the running total on by the score of every negative rule that hits no line, with small scores in the 32-bit range throughout |
| Scores.LinesAreRules | src/weeder.cc:399-436 | adding line by line is adding rule by rule, score times number of lines hit |
| Scores.ProgramOrderTotal | src/weeder.cc:385-483 | the total in the program's order is size score plus the weight of every rule |
| ScoreRange.NoWrap | src/weeder.cc:390-483 | when (lines * rules + 1) * max score is below 2^31, every running total the score passes go through, and the final one, is a 32-bit integer |
| ScoreRange.LineTotalInRange | src/weeder.cc:399-436 | the same for the total before any rule of any line, as the loop invariant uses it |
| Verdict.OrderDoesNotMatter | src/weeder.cc:40-73 | the verdict is the same for every order of the rules and of the header lines, cached fields fixed |
| VerdictLaws.VerdictTable | src/weeder.cc:40-73 | duplicates are deleted; a friend exactly above MAXSIZE_ALLOW; one that only a negative rule allows is kept; a stranger is deleted exactly for a long line, its size, a deny rule of either sign or its score |
| VerdictLaws.DeniedDeletedIff | src/weeder.cc:62-66 | a denied message that is no duplicate is deleted exactly when no allow rule keeps it |
| VerdictLaws.ScoredDeletedIff | src/weeder.cc:68-70 | the same for a message whose score reaches HIGHSCORE |
| VerdictLaws.OneDenyRule | src/weeder.cc:275-378 | one more deny rule deletes a kept stranger exactly when it matches a line or the normalised subject, or as a negative rule matches neither |
| VerdictLaws.OneAllowRule | src/weeder.cc:126-215 | what one more allow rule of either sign does to every verdict |
| VerdictLaws.OneScore | src/weeder.cc:399-481 | one more scored rule adds its score once for each line it hits, or once for none if it is negative |
| VerdictLaws.NoScores | src/weeder.cc:392-396 | without scored rules the total is the score for the size |
| VerdictLaws.NothingSet | src/weeder.cc:40-73 | with the initial settings every message that is no duplicate is kept |
| Verdict.SkippingIsSound | src/weeder.cc:177-215 | with no negative rule counted, skipping the negative passes changes nothing |
| Verdict.StricterDeletesMore | src/weeder.cc:255-505 | adding deny rules of either sign and non-negative scores keeps every deletion |
| Verdict.FriendlierDeletesIff | src/weeder.cc:126-218 | adding allow rules deletes a kept message exactly when a positive rule newly matches one above MAXSIZE_ALLOW |
| Verdict.NewFriendDeleted | src/weeder.cc:136-169 | a kept message that one more allow rule deletes |
| Verdict.OverlongDeletedIff | man/mailfilterrc.5:141-148 | an overlong message is deleted exactly when no allow rule keeps it |
| Verdict.OversizedFriendDeletedIff | man/mailfilterrc.5:150-157 | an oversized allowed message is deleted exactly when a positive rule allows it |
| Verdict.FriendKeptIff | man/mailfilterrc.5:63-68 | an allowed message is kept exactly when it is no duplicate and fails no size test of a positive allow rule |
| Verdict.FriendsDeleted | src/weeder.cc:40-56 | an oversized message and a duplicate that match an allow rule and are deleted |
| Verdict.AllowBeatsMaxLength | src/weeder.cc:50-60 | an overlong message that is kept |
| Verdict.NegativeAllowSkipsSize | src/weeder.cc:177-215 | an oversized allowed message that is kept |
| MailboxRun.RunStricter | src/weeder.cc:40-73 | over a whole run with the memory carried along, stricter rules delete a superset |
| MailboxRun.RunFriendlier | src/weeder.cc:40-73 | over a whole run with MAXSIZE_ALLOW = 0, more allow rules delete a subset |
| MailboxRun.VerdictsCompose | src/pop3.cc:47 | scanning accounts one after the other with the shared weeder is one long run |
| MailboxRun.MemoryHoldsIds | src/weeder.cc:93-109 | over every run the memory is duplicate-free and holds exactly the distinct non-empty IDs seen |
| MailboxRun.LaterCopiesDeleted | man/mailfilterrc.5:70-75 | every message whose ID was remembered before the run or stands in an earlier message is deleted, whatever the rules |
| MailboxRun.DuplicateIff | src/weeder.cc:93-109 | a message is taken for a duplicate exactly when its non-empty ID was remembered before the run or an earlier message had it |
| MailboxRun.NoDuplicates | src/weeder.cc:93-109 | without DEL_DUPLICATES nothing is remembered and nothing is a duplicate |
| Rules.Preferences.AddAllowRule | src/preferences.cc:189-213 | the rule is appended with its sign and case mode, and the counter still is the number of negative rules |
| Rules.Preferences.AddDenyRule | src/preferences.cc:163-187 | the same for deny rules |
| Rules.Preferences.AddScore | src/preferences.cc:215-241 | the same for scored rules |
| Rules.NoNegatives | src/weeder.cc:177-184 | a counter is zero exactly when no rule of its vector is negative |
| Rules.KeywordDecides | src/preferences.cc:179-184 | the keyword, however capitalised, decides the case mode, and any other keyword leaves the default |
| Rules.Keywords | src/preferences.cc:179-184 | three keywords and their case modes |
| Header.Header.AddEntry | src/header.cc:87-145 | the entry is appended, every cached field stays the body of the last entry with its tag, and the exception is exactly that of an invalid message-ID |
| Header.LastBodyIs | src/header.cc:94-144 | of several entries with one tag the last decides |
| Header.NormalSubjectIs | src/header.cc:119-138 | with NORMAL the normalised subject is that of the last subject entry behind `Subject: `, without it there is none |
| Common.SameNoCaseIff | src/header.cc:94-140 | tags are compared letter by letter, disregarding the case of ASCII letters and nothing else |
| Normalise.NormaliseSubject | src/header.cc:176-208 | the erasing loop ends, although its index steps back, and filters and squeezes the subject |
| Normalise.DropSpaces | src/header.cc:183-187 | the inner loop removes a run's leading spaces at the index and keeps the meaning |
| Normalise.NormalisedIsNormal | src/header.cc:176-208 | the result holds only kept characters and no two adjacent spaces; exactly such subjects stay as they are; normalising is idempotent |
| Normalise.NormalisedKeepsWords | man/mailfilterrc.5:177-185 | no letter, digit or '@' is lost, added or moved |
| Normalise.RunKeepsLast | src/header.cc:183-187 | of a run of white space between two words exactly the last character stays |
| Normalise.AlphanumericIff | man/mailfilterrc.5:177-185 | a normalised subject is purely alphanumeric exactly when the subject holds no white space and no '@' |
| Normalise.BlankStays | src/header.cc:189-193 | a subject whose normalised form keeps a blank |
| HeaderScanner.Best | src/rfc822.ll:58-118 | the chosen match is the longest of all active rules and, among equally long ones, the first in the file |
| HeaderScanner.TakenIsBest | src/rfc822.ll:58-118 | that description determines rule and length |
| HeaderPatterns.PatternIff | src/rfc822.ll:58-118 | the language of every rule is that of its regular expression, with the standard meaning of concatenation, choice and repetition |
| HeaderScanner.BlankOut | src/rfc822.ll:101-103 | the in-place loop turns every white space character into a blank and nothing else |
| HeaderScanner.Scanner.Lex | src/rfc822.ll:64-118 | each call delivers the next token of the whole input's tokens, over any number of token-less matches |
| HeaderParser.ParsesIffDerives | src/rfc822.yy:98-139 | the parser's states accept exactly the grammar and give the derived entries with concatenated bodies |
| HeaderParser.Parse | src/rfc822.yy:98-139 | for every text the parser ends as its first event says, parsed, thrown or syntax error, and when it succeeds the entries of the grammar were added in order |
| HeaderParser.EndsIff | src/rfc822.yy:98-139 | it succeeds exactly for token sequences the grammar derives with no refused entry, and throws exactly when some first tokens, up to one that is no body, derive a refused entry |
| HeaderParser.SyntaxErrors | src/rfc822.yy:98-139 | a tag without a body, a body without a tag and a separator line are syntax errors |
| HeaderParser.EndMarkIgnored | src/rfc822.yy:103-139 | an end mark between entries makes no difference |
| HeaderRoundTrip.ReadingInvertsRendering | src/rfc822.ll:58-118 | scanning and parsing a rendered header, folded or not, gives its entries in order |
| HeaderRoundTrip.ReadBackIff | src/rfc822.ll:71-93 | a rendered header is read back exactly when no body is empty or starts with white space |
| HeaderRoundTrip.EmptyBodySwallowsField | src/rfc822.ll:71-93 | a field with an empty body takes the next field as its body |
| HeaderRoundTrip.TagTextIff | src/rfc822.ll:60 | the scanner's tags are exactly the words of letters, digits and hyphens that start with a letter |
| HeaderRoundTrip.SeparatorRejected | src/rfc822.ll:65-69 | a header that starts with a mailbox separator line is a syntax error |
| HeaderRoundTrip.CharacterSkipped | src/rfc822.ll:116-118 | characters that start no token are skipped |
| HeaderRoundTrip.LoneBlank | src/rfc822.ll:95-118 | a line of one blank is a continuation |
| HeaderRoundTrip.UnfoldedExact | src/weeder.cc:130 | for an unfolded field the weeder rebuilds the line as it was written |
| HeaderRoundTrip.FoldedUpToSpace | src/rfc822.ll:95-108 | a folded field agrees with what was written up to white space |
| Pop3.Pop3.Scan | src/pop3.cc:102-188 | for every server, settings and memory, the commands issued, the memory afterwards and the result are those of the scan as a function |
| Pop3.Pop3.Examine | src/pop3.cc:120-183 | one message: size, entries, ID and normalised subject are those of its two replies, its commands follow its verdict, and on failure nothing is remembered or deleted |
| Pop3.Pop3.Fetch | src/pop3.cc:129-170 | the header object is what the two good replies describe; otherwise exactly the requests up to the failing one were issued |
| Pop3.Pop3.ParseReply | src/pop3.cc:159-170 | the header behind the status line is parsed into the message's header, or the parser's end decides the result |
| Pop3.Pop3.Status | src/pop3.cc:78-95 | STAT is issued and the second word of its good reply is the number of messages |
| Pop3.Pop3.RemoveMsg | src/pop3.cc:221-233 | DELE is issued exactly outside test mode and no reply is read |
| MailboxScan.ScanExplained | src/pop3.cc:102-188 | STAT, then LIST, TOP and DELE as the verdicts of the run say; every judged message is the one its two good replies describe; the memory is that of the run; the result is 0 exactly when all announced messages were judged, and otherwise the scan stopped at the first that cannot be seen, for the reason stated |
| MailboxScan.ScanDeletes | src/pop3.cc:174-175 | in every trace of a scan the deleted numbers are exactly those judged 1 outside test mode, and no later command names a deleted number |
| MailboxScan.CopiesDeleted | man/mailfilterrc.5:70-75 | with DEL_DUPLICATES, every message whose non-empty Message-Id, as the server sent it, is remembered from an earlier scan or stands in an earlier message is deleted, in test mode none |
| MailboxScan.RenderedIsSeen | src/pop3.cc:129-170 | a header written as RFC 822 says, folded or not, behind a status line, and a size written in decimal in the reply to LIST, are judged with exactly these fields and this size |
| MailboxScan.IdSeen | src/header.cc:94-105 | the ID of such a message is the body of its last Message-Id field, however capitalised |
| MailboxScan.MessageIdSeen | src/pop3.cc:129-170 | a concrete message with its ID |
| MailboxScan.AnnouncedIs | src/pop3.cc:78-95 | a good reply to STAT announces its first number, written in decimal |
| MailboxScan.LookIff | src/pop3.cc:129-170 | what is seen of a message in terms of the replies' first character and the header grammar |
| MailboxScan.StopIff | src/pop3.cc:102-188 | the program ends exactly at a header outside the grammar, and the scan fails exactly without an announcement or at any other message that cannot be seen |
| MailboxScan.IssuedAt | src/pop3.cc:120-175 | for every message in ascending order LIST, then TOP, then DELE exactly for the verdict 1 outside test mode |
| Accounts.AtMostOneKept | man/mailfilterrc.5:70-75 | with DEL_DUPLICATES and outside test mode, over any sequence of scans of any servers, failed ones included, at most one of the judged messages with one Message-Id gets no DELE |
| Accounts.LaterCopyDeleted | src/weeder.cc:93-109 | a message judged after another with its ID, in the same account or a later one, gets a DELE exactly outside test mode |
| Accounts.MemoryHoldsAll | src/pop3.cc:47 | after any sequence of scans the memory holds no ID twice and exactly those remembered before and those of all judged messages |
| MailboxScan.IssuedNames | src/pop3.cc:120-183 | only messages examined so far are named |
| Replies.AfterStatusLine | src/pop3.cc:156-160 | cutting behind the first newline takes exactly the status line away |
| Replies.NumberRead | src/pop3.cc:94 | a number written in decimal is read back, with its sign, behind white space and up to the first character that is no digit |
| Replies.SecondWordRead | src/pop3.cc:89-93 | the second of two words is found however they are spaced |
| Replies.OnlyWordRead | src/pop3.cc:89-93 | a reply of a single word gives that word |
| Replies.AllTaken | src/pop3.cc:137-160 | without a blank, or without a newline, nothing is cut off a reply |
| Replies.StatRead | src/pop3.cc:86-94 | the reply to STAT is read as its first number |
| Replies.ListRead | src/pop3.cc:137-140 | the reply to LIST is read as its second number |

## Left out

- Weeder.Weeder.CheckScores: adds in unbounded integers; for scores that are not small the source's signed overflow is undefined.
- Md5.Context.Update: does not cover updates that do not fit, where the source's block loop reads past its input.
- Md5.HashChunks: has no counterpart loop in the source; it stands for a caller that makes any number of updates.
- Header.Header.AddEntry: on an invalid message-ID the source throws with the entry already added, and nothing is promised about further use of that header beyond its ID and subject.
- HeaderScanner.Best: models the scanner generator's automaton by its definition (rule languages, longest match, first rule), not by its tables.
- Pop3.Pop3.Scan: takes a reply to be one string per read; the reading of a reply in pieces up to its terminator is left out.
- Replies.Atoi: reads numbers of any size; the source's overflow is undefined.
- getopt's `-W foo`, `long_only`, option strings with a leading `+` or `-`, and POSIXLY_CORRECT: other modes of the same scanner.
- getopt's error messages: output only.
- The derivation of the MD5 constants from the sine function: they are compared with the table of the standard as numbers.
- The wiping of MD5Transform's local words: not visible to any caller.
- Regular expressions, sockets, TLS, signals, logging, the file of headers (SHOW_HEADERS): foreign calls and output.
- The configuration file's scanner and parser, accounts, and the setters of Preferences: keyword plumbing that would add only easy members.
- The dialogue of POP3 and APOP logins and of logout: a fixed exchange of two or three commands.
- `rfc822_valid_msgid`: a parameter; an unfinished check.
- Failed memory allocation: not part of this model.
