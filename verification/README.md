# WendzelNNTPd: a verified model

A Dafny model of the WendzelNNTPd news server (SQLite backend): the article store and the delivery of
posted articles, the text pipeline of POST, the session state machine, the administration tool, and the
small parsers. The central results are statements over every run of the server, with any number of
sessions and any administration commands interleaved.

`dafny verify dfyconfig.toml` checks the whole project.

## How the model is laid out

| file | what it holds |
|---|---|
| CStrings.dfy | case-insensitive comparison, substring search, decimal printing, `atoi`, `strtok` |
| Tokenizer.dfy | `get_slinearg` |
| LineLookup.dfy | `CDP_return_linevalue` |
| CharStack.dfy | the crossposting dedup list, as linked nodes |
| Receive.dfy | the chunked receive loop, the header/body split, the line count |
| HeaderEdit.dfy, HeaderLines.dfy | in-place deletion of header fields in the buffer; the same seen on lines |
| Tables.dfy | the SQLite tables and statements, class `Database` |
| Delivery.dfy | the numbering invariant, the delivery loop, exactly-once crossposting |
| Post.dfy, PostFacts.dfy, PostExample.dfy | `docmd_post` end to end; what every POST keeps and what 240 means; a posting that is accepted |
| NewsgroupList.dfy | the comma list of a Newsgroups line, and what a POST to it comes to |
| Overview.dfy, OverviewOfPost.dfy | XOVER: ranges, size and line fields; the line of an accepted POST |
| Reading.dfy | the queries behind GROUP, LISTGROUP and ARTICLE |
| Session.dfy, Connection.dfy | the handlers and `do_command`: as functions, and as the session object that runs them |
| SessionFacts.dfy | what one command keeps of a session, and exact replies |
| Admin.dfy, AdminFacts.dfy, Cascade.dfy | `wendzelnntpadm` and what each command does to each table; SQLite delete sequences against PostgreSQL cascades |
| System.dfy, SessionRuns.dfy | the whole server and its runs |
| CommandReader.dfy | the main loop's reading of one command line |
| Keywords.dfy, CommandLines.dfy | which keyword reaches which handler; command lines as clients write them, what arrives and which arguments are read |
| ClientCommands.dfy | GROUP, LISTGROUP and XOVER from the bytes sent to the reply; the lines turned away with 480 and 483 |
| Retrieval.dfy, Replies.dfy | from a stored article to the reply a client gets, and when that reply can be taken apart |
| Login.dfy | adduser and AUTHINFO over whole runs |

Code that changes state is imperative: `Database`, `Spool`, `Connection`, `Tool` and the list `Node` are
classes whose methods follow the C code, buffers are arrays edited in place, and each method is proved
equal to a function of its old state. Everything proved about runs is proved about those functions.

## Assumptions

- Each command is one atomic step; the code takes no lock around its read-then-write sequences
  (src/server.c:1511-1528, src/database.c:91).
- Input holds no NUL byte, allocation succeeds, body files can be written, and numbers stay below 2^31
  where a statement says so. The byte behind the command buffer's limit is zero.
- No group name holds a single quote, because addgroup refuses it (src/cdpnntpadm.c:290-296), so that
  doubling quotes in a Newsgroups line before the lookup (src/server.c:984) finds what the plain name finds.
- A statement can fail only on a primary key, or on a group flag that breaks its text (src/db_sqlite3.c:1250). Table newsgroups is kept by name: addgroup refuses a name
  that exists (src/cdpnntpadm.c:299), so no name can occur twice.
- Parameters stand for the regex checks, SHA-256, the sender's host name, the server's own name, the
  clock, the outcome of a TLS handshake, the number SQLite reads from an article argument that is not all
  digits, and the value of an uninitialised variable (src/db_sqlite3.c:770).
- The model starts from an empty store. Host names, the server's name and dates are one line each and fit
  their C buffers where the header lookup depends on it.

## Where the code differs from its comments or the RFCs

The model follows the code.

- `charstack_push_on` overwrites `next`, so the list holds only the first and the latest name
  (src/charstack.c:55). `Delivery.CrosspostExactlyOnce` says exactly for which lists that is enough, and
  `Delivery.ForgottenRepeat` shows one for which it is not.
- The terminator is looked for in the last five bytes received, although a comment says everything behind
  it is cut (src/server.c:1127-1140). `Receive.ChunkingIndependence` gives the exact condition for reading
  to be independent of the network, `Receive.PipelinedCommandHidesTheEnd` the consequence for clients that
  send on.
- A field name is matched anywhere in the header, not only at line starts (src/server.c:1336):
  `HeaderLines.PassFiltersIff` says exactly for which headers a pass removes the lines that start with the
  name and nothing else, `HeaderLines.NameInsideALine` what it does to the others.
- LISTGROUP is meant to select the first article (src/db_sqlite3.c:595) and selects the last or none:
  `SessionFacts.ListGroupSelectsFirstIff`.
- LISTGROUP selects a group before it asks the ACLs (src/server.c:884-904). With the deletion of the
  selected group this is the only way in which a session's article can stop being one of its group:
  `SessionRuns.SoundUnlessLost`.
- adduser takes any password of 8 to 100 characters (src/cdpnntpadm.c:352-360). The server cuts its input at
  line feeds (src/server.c:1739), doubles quotes (src/server.c:1759) and hashes one word of the line
  (src/server.c:322). `Login.OwnPassword` says exactly which passwords can be typed,
  `Login.TwoWordsAreRejected` and `Login.TwoLinesAreRejected` give two that cannot. A line feed at the very
  end of a password is harmless: the line is cut behind it, and the CRLF that follows is a command of its own.
- Quotes are doubled before `do_command` and again by every statement, so that an id with a single quote is
  never found: `Retrieval.IdComesBack`.
- A dot line inside a header, a header that loses its last line break, or a dot line inside a body make the
  replies to ARTICLE and HEAD end early, lose their blank line, or never end (section 3.1.1 of RFC 3977):
  `Replies.ParsesBackIff`, `Replies.HeadEndsOnceIff`.
- The 503 reply for an empty body (src/server.c:1180-1185) is never given: `Receive.SplitArticleFacts`.

## Model

| member | source | states |
|---|---|---|
| `Tokenizer.GetSlineArg` | src/server.c:142-182 | the scanning loop returns the n-th piece between spaces, leading CRs stripped, empty pieces dropped, cut at its first CR; NULL beyond |
| `Tokenizer.ArgRoundTrip` | src/server.c:142-182 | any plain words spaced out in any way come back by their index, and nothing else does |
| `Tokenizer.ArgIsPlain` | src/server.c:142-182 | whatever the line, a word read from it is not empty and holds no space and no CR |
| `Tokenizer.ArgIsWithin` | src/server.c:142-182 | and it is a contiguous part of the line |
| `CommandReader.ReadLine` | src/server.c:1691-1770 | the byte-wise loop on the buffer reads up to and including the first line feed, or ends when the client goes away or the buffer is full |
| `CommandReader.TrimLine` | src/server.c:1752-1757 | the line is cut at its last CR, one at the very start apart |
| `CommandReader.ReadCommand` | src/server.c:1731-1763 | reading, cutting and doubling the quotes, as `do_command` gets the line |
| `CommandLines.LineArrives` | src/server.c:1731-1763 | a text without CR behind a command arrives up to and including its first line feed, quotes doubled; one without a line feed arrives whole, without the CRLF that ends it |
| `CommandLines.ArgFeedLast` | src/server.c:1731-1763 | whatever is sent, no argument holds a line feed but at its very end |
| `LineLookup.ReturnLineValue` | src/cdpstrings.c:44-93 | the nested loops on one index terminate and return the value of the first line that carries the key, or NULL |
| `LineLookup.LookupByLines` | src/cdpstrings.c:44-93 | that is a lookup in the list of lines cut at CR or LF, case-insensitive, space or tab after the key, empty value refused |
| `LineLookup.ShortTextHasNone` | src/cdpstrings.c:57-81 | leaving early on a suffix shorter than the key loses nothing |
| `Overview.ValueForms` | src/cdpstrings.c:57-81 | a space or a tab may stand behind the key; an empty value is none |
| `OverviewOfPost.LinePassed` | src/cdpstrings.c:57-81 | a line without the key, or with anything else behind it, is passed over |
| `CharStack.Node.CheckFor` | src/charstack.c:22-34 | finds exactly the names held |
| `CharStack.Node.PushOn` | src/charstack.c:36-60 | afterwards the list holds the first name ever pushed and this one, nothing else |
| `Receive.ReceivePosting` | src/server.c:1054-1148 | the loop on the buffer: outcome as specified, text at the front, zeros behind it, the last byte never written |
| `Receive.ChunkingIndependence` | src/server.c:1054-1148 | every way of cutting a message into chunks, whatever follows in later chunks, makes the loop stop after exactly that message, if and only if it fits and holds the terminator at its end only |
| `Receive.PipelinedCommandHidesTheEnd` | src/server.c:1127-1136 | data behind the terminator in the same chunk hides the end of the article |
| `Receive.StaysInBuffer` | src/server.c:1094-1106 | whatever arrives, an accepted article is shorter than the buffer and ends with the terminator |
| `Receive.SplitBuffer` | src/server.c:1156-1179 | the loops cut the buffer at the first blank line that has a byte behind it |
| `Receive.SplitArticleFacts` | src/server.c:1156-1185 | header, CRLF and body are the whole article; the header ends in CRLF and the body in the dot line |
| `Receive.CountLines` | src/server.c:1387-1400 | the count is the number of body lines before the final dot |
| `HeaderEdit.SameName` | src/server.c:1336 | the comparison never leaves the buffer, stale bytes included |
| `HeaderEdit.CloseGap` | src/server.c:1347-1352 | copying while `strlen` is asked again leaves exactly the text without the slice |
| `HeaderEdit.RemoveField` | src/server.c:1334-1356 | one pass removes exactly the slice from the first case-insensitive occurrence to the end of its line, and a match in stale bytes changes nothing |
| `HeaderEdit.RemoveLines` | src/server.c:1332-1356 | the three passes in order |
| `HeaderLines.PassFiltersIff` | src/server.c:1334-1356 | one pass over a header of whole lines removes the lines that start with the name and nothing else if and only if: no line holds the name; or the first that holds it starts with it and no later one does; or the next line repeats its text from the name on, and no line after that starts with it |
| `HeaderLines.EditIsFiltering` | src/server.c:1332-1356 | when the first two passes meet that condition on the lines left to them, the whole edit filters the lines with the three names out if and only if the third does too |
| `HeaderLines.NameInsideALine` | src/server.c:1336-1352 | whatever a pass finds in a line, it cuts from there to the end of the line with its break, so that the next line is glued on |
| `HeaderLines.BareFeed` | src/server.c:1340-1346 | a line that ends in a bare LF is cut like one that ends in CRLF |
| `HeaderLines.BareReturn` | src/server.c:1340-1346 | behind a bare CR one more byte goes |
| `HeaderLines.PassIsDelete` | src/server.c:1334-1356 | on whole lines and a last one without its break, one pass cuts the first line that holds the name and glues it to the next; nothing else changes |
| `HeaderLines.EditIsPasses` | src/server.c:1332-1356 | editing any header of whole lines is three such passes on its lines |
| `HeaderLines.EditFiltersIff` | src/server.c:1332-1356 | the edit takes out exactly the lines that carry one of the names if and only if those three passes do |
| `HeaderLines.KeptOne` | src/server.c:1332-1336 | the lines taken out are those that start with "Message-ID: ", "Date: " or "Lines: " in any letter case |
| `HeaderLines.KeptAppend` | src/server.c:1332-1356 | and the others stay in their order |
| `Tables.Database.DeleteNewsgroup` | src/db_sqlite3.c:1257-1306 | the five statements: the whole new state |
| `Tables.Database.DelUser` | src/db_sqlite3.c:1347-1381 | the three statements: the whole new state |
| `Tables.Database.DelRole` | src/db_sqlite3.c:1128-1163 | the three statements: the whole new state |
| `Tables.Database.GetHighValue` | src/db_sqlite3.c:758-795 | the counter of the group, or whatever the variable held |
| `Tables.Database.InsertIntoNgposts` | src/db_sqlite3.c:945-962 | inserts unless the key is there |
| `Tables.Database.InsertIntoPostings` | src/db_sqlite3.c:904-925 | inserts unless the key is there |
| `Tables.Database.UpdateHighValue` | src/db_sqlite3.c:928-942 | changes the counter of this group only |
| `Delivery.AddedNumbered` | src/server.c:1526-1528 | a row with number high + 1 and the counter moved to it keep the numbers exactly 1..high |
| `Delivery.GroupDeletedNumbered` | src/db_sqlite3.c:1257-1306 | deleting a group keeps the numbers of all others |
| `Delivery.DeliverNumbered` | src/server.c:1500-1547 | wherever the loop ends, at a limit or a key clash included, numbering is intact |
| `Delivery.DeliverAll` | src/server.c:1487-1547 | the loop over the comma list on the real tables and the linked dedup list |
| `Delivery.HeldIsFirstAndLatest` | src/charstack.c:36-60 | during delivery the list holds exactly the first name and the one that was new most recently |
| `Delivery.CrosspostExactlyOnce` | src/server.c:1500-1554 | 240 if and only if every repeat is of one of those two and no counter is full; then each distinct permitted group has one row more and high is one higher; otherwise the groups before the failing name are served and the loop ends at the limit or the primary key |
| `Delivery.RepeatFreeIsCaught` | src/server.c:1521-1525 | lists without repeats always qualify |
| `Delivery.TwoNamesAreCaught` | src/server.c:1521-1525 | so do all lists over two names |
| `Delivery.ForgottenRepeat` | src/charstack.c:55 | a list of four names that does not |
| `NewsgroupList.NamesOfList` | src/server.c:975-1011 | for any names without commas, with any commas around and at least one between them, the loops see exactly these names, in order |
| `NewsgroupList.Unfit` | src/server.c:1051-1200 | without a whole article the connection ends; without the required lines or a Newsgroups line the reply is 441; nothing is changed |
| `NewsgroupList.RefusedForList` | src/server.c:984-1011 | the first name of the list that is missing (411) or closed (441) decides the reply, and nothing is changed |
| `NewsgroupList.AbortedForList` | src/server.c:1215-1330 | with all names of the list open, a number or a clock that fails ends the connection before anything is stored |
| `NewsgroupList.AnsweredForList` | src/server.c:1487-1556 | else the reply is 240 if and only if every repeat among the permitted names is caught and no counter is full |
| `NewsgroupList.DeliveredToList` | src/server.c:1487-1547 | 240 means: the article is in exactly the listed groups its sender has access to, in each behind its last number |
| `Post.IdsAreInjective` | src/database.c:141-144 | ids with different numbers differ, and so do their body files, whatever hosts are appended |
| `Post.NameErrorIff` | src/server.c:959-1014 | the first loop passes exactly when every name exists and is open to posting |
| `Post.CheckNames` | src/server.c:959-1014 | the loop over the comma list |
| `Post.Spool.GetUniqnum` | src/database.c:93-154 | the number rises by one and the id is built from it; without a usable file there is no id and the number stays |
| `Post.Spool.SaveBody` | src/database.c:214-246 | the body file named by the id without brackets, and no other |
| `Post.FileNameIs` | src/database.c:214-246 | the id without its brackets |
| `Post.ReceiveAndScreen` | src/server.c:1051-1213 | receiving and all checks, nothing changed |
| `Post.BuildPosting` | src/server.c:1332-1476 | the row stored: own lines, edited header, subject and author with their quotes doubled, line count |
| `Post.DocmdPost` | src/server.c:1017-1556 | the whole handler on the real objects, every abort point included |
| `PostFacts.NewIdIsFresh` | src/server.c:1219-1313 | a new id meets no posting, no body file and no id issued before |
| `PostFacts.PostKeeps` | src/server.c:1017-1556 | every POST, accepted, refused or cut off, keeps the invariant, and messages already there keep their rows, headers and bodies |
| `PostFacts.RefusalIsTotal` | src/server.c:1202-1213 | one missing or closed name and no table, counter or file changes |
| `PostFacts.RowsGained` | src/server.c:1488-1547 | every group that gains a row was named, existed and was open |
| `PostFacts.ReplyIs240Iff` | src/server.c:1500-1554 | after the checks the reply is 240 if and only if every repeat among the permitted names is caught and no counter is full; otherwise the connection dies |
| `PostFacts.Accepted` | src/server.c:1439-1556 | 240 means: posting, body file, one row in each permitted group with its next number, and nothing else changed |
| `Overview.ParseRange` | src/server.c:653-685 | the scanning loop, its early end at the highest number included |
| `Overview.RangesMeanWhatTheySay` | src/server.c:643-705 | "a", "a-" and "a-b" select exactly the articles numbered a, from a on, a to b; 420 exactly when a exceeds high |
| `Overview.XoverRow` | src/db_sqlite3.c:654-708 | the callback computes the fields of one line |
| `Overview.XoverRows` | src/db_sqlite3.c:710-728 | one line for every row of the range that joins with its posting |
| `Overview.NoRowIsLost` | src/db_sqlite3.c:711-728 | the join with postings drops no row |
| `Overview.SizesAgree` | src/db_sqlite3.c:654-700 | for every accepted POST, whatever header the client sent, the size line found is the server's, bytes is stored header plus stored body, lines is the body's line count |
| `Overview.NothingCutOff` | src/server.c:1439-1441 | the bound of `snprintf` never cuts the generated lines |
| `OverviewOfPost.LineOfPost` | src/server.c:1439-1556 | the overview line of an accepted POST has its number, its id and the time of its arrival |
| `OverviewOfPost.SubjectOfLine` | src/server.c:1402-1476 | and, for headers of whole lines that the edit filters, the subject the client sent, quotes doubled, or "(NULL)" |
| `OverviewOfPost.AuthorOfLine` | src/server.c:1402-1476 | the author the client sent |
| `OverviewOfPost.ReferencesOfLine` | src/db_sqlite3.c:654-700 | the references the client sent, or a blank |
| `OverviewOfPost.XrefOfLine` | src/db_sqlite3.c:654-700 | and the same for Xref |
| `Reading.NumbersAreUpToHigh` | src/db_sqlite3.c:928-962 | under the invariant a group's numbers are the set 1..high |
| `Reading.GroupFiguresAreExact` | src/db_sqlite3.c:486-551 | high is the number of rows and the largest number, 1 the smallest |
| `Reading.ListingIsAscending` | src/db_sqlite3.c:613-631 | the ordered query yields 1, 2, ..., high |
| `Reading.SelectByNumber` | src/db_sqlite3.c:438-452 | finds the message of that number |
| `Reading.SelectPostnums` | src/db_sqlite3.c:627-630 | all numbers of the group in ascending order |
| `Reading.MinPostnum` | src/db_sqlite3.c:485-509 | the least number, or none |
| `SessionFacts.GroupReplyIsExact` | src/server.c:805-843 | the 211 figures are the true count, minimum and maximum (0 when empty) and the article selected is that minimum |
| `SessionFacts.GroupDenied` | src/server.c:805-843 | 501 without a name; 411 for a group that is missing or that the user has no access to; the session stays as it was |
| `SessionFacts.ListGroupDenied` | src/server.c:849-908 | bare LISTGROUP: 412 without a group, 411 without access; named: 411 for a missing group; the session stays as it was |
| `SessionFacts.NotFound` | src/server.c:713-790 | when 412, 420 or 430 answer ARTICLE, HEAD, BODY and STAT; the pointer then stays |
| `SessionFacts.RepliesInFull` | src/db_sqlite3.c:304-419 | the four replies to a found article, spelled out; STAT sends its line only |
| `SessionFacts.ListGroupReplyIsExact` | src/db_sqlite3.c:583-641 | with a name or bare, all numbers are listed; the pointer goes to the last, or to none after a found article or in an empty group |
| `SessionFacts.ListGroupSelectsFirstIff` | src/db_sqlite3.c:595-637 | with a name or bare, when that is the first article, as section 6.1.2 of RFC 3977 wants |
| `SessionFacts.XoverReplyIsExact` | src/server.c:630-706 | the lines sent carry exactly the existing numbers the range names, or the reply is 420 |
| `SessionFacts.XoverRefused` | src/server.c:630-660 | 412 without a group, 420 without a range and an article |
| `SessionFacts.CommandKeepsPointer` | src/server.c:713-908 | with any ACLs, every handler leaves selected_article NULL or a number of selected_group, if and only if it is not a LISTGROUP of an existing, denied group with fewer articles than the number selected |
| `SessionFacts.ServeKeepsPointer` | src/server.c:1562-1728 | the same for a turn of the main loop |
| `SessionFacts.BareArticleIsFound` | src/server.c:773-789 | then a command without argument answers with that article |
| `SessionFacts.PointerNamesOne` | src/db_sqlite3.c:446-452 | and the number names exactly one message |
| `SessionFacts.DeniedListGroupMixesUp` | src/server.c:884-904 | what follows that LISTGROUP: a bare ARTICLE is answered 430 exactly when the group has not so many articles |
| `SessionFacts.LockedOut` | src/server.c:1562-1642 | without authentication only QUIT, AUTHINFO and STARTTLS are handled |
| `SessionFacts.AuthStep` | src/server.c:292-370 | only AUTHINFO changes the login: USER and a rejected PASS end it, an accepted PASS grants it and with ACLs keeps the name |
| `SessionFacts.PassStep` | src/server.c:310-370 | 281 exactly when authenticated, and only for a stored user and hash |
| `SessionFacts.UserReplies` | src/server.c:292-308 | AUTHINFO USER: 381 and the name is held, or 501; the login ends |
| `SessionFacts.PassReplies` | src/server.c:310-370 | AUTHINFO PASS: 381 without a name, 501 without a word, else 281 or 482; the name is forgotten unless ACLs are configured |
| `SessionFacts.FixedReplies` | src/server.c:1583-1642 | QUIT: 205 and the connection ends; NEWNEWS 502; unknown commands 500 |
| `SessionFacts.PostReplies` | src/server.c:1017-1556 | POST is answered with its code, or the session is dead |
| `SessionFacts.StartTlsReplies` | src/server.c:406-431 | 382 and a pending switch if and only if STARTTLS is offered, TLS is off and nobody has logged in; else 502 |
| `Keywords.CaseOnly` | src/server.c:1566-1567 | commands and field names are compared without regard to the case of ASCII letters, and of nothing else |
| `Keywords.EveryKeyword` | src/server.c:1583-1615 | which handler each keyword reaches, whatever stands behind it, and that only that keyword does |
| `Keywords.ListAndArticle` | src/server.c:1602-1619 | LIST unless a longer keyword stands there; ARTICLE, HEAD, BODY, STAT |
| `Keywords.EveryOtherKeyword` | src/server.c:1620-1633 | the same for the remaining keywords |
| `Keywords.WithoutLogin` | src/server.c:1583-1642 | without a login four keywords reach their handlers |
| `ClientCommands.LoginRequired` | src/server.c:1562-1642 | 480 if and only if a login is needed, there is none, and none of the four keywords stands there; nothing changes |
| `ClientCommands.TlsRequired` | src/server.c:1570-1577 | 483 if and only if TLS is mandatory, off, and one of the keywords named stands there; nothing changes |
| `ClientCommands.GroupSent` | src/server.c:805-843 | "group g" in any letter case, from the bytes: 211 with the true figures and the first article selected, or 411 and nothing changed |
| `ClientCommands.ListGroupSent` | src/server.c:849-908 | "listgroup g" from the bytes: all numbers, and where the pointer goes; or 411 |
| `ClientCommands.BareListGroupSent` | src/server.c:849-908 | "listgroup" alone, a deleted group included |
| `ClientCommands.XoverSent` | src/server.c:630-706 | "xover" with a range, from the bytes: one line, of its own article, for each existing number it names, or 420 |
| `ClientCommands.BareXoverSent` | src/server.c:630-660 | "xover" alone: exactly the line of the current article; 412, 420 |
| `SessionFacts.TlsTurn` | src/server.c:1701-1728 | one turn of the main loop: TLS never goes off, goes on only by a pending switch, which clears group and article |
| `SessionFacts.TurnEnds` | src/server.c:1701-1738 | a failed handshake, or a client that sends no line, ends the connection |
| `Connections.Connection.AuthinfoUserCmd` | src/server.c:292-308 | the handler on the session object |
| `Connections.Connection.AuthinfoPassCmd` | src/server.c:310-370 | the handler on the session object |
| `Connections.Connection.StartTlsCommand` | src/server.c:406-431 | the handler on the session object |
| `Connections.Connection.GroupCommand` | src/server.c:805-843 | the handler with its queries and callbacks |
| `Connections.Connection.ListRows` | src/db_sqlite3.c:583-641 | the callback row by row |
| `Connections.Connection.ListGroupCommand` | src/server.c:849-908 | the handler, group selected before the ACL check |
| `Connections.Connection.ArticleCommand` | src/server.c:713-790 | the handler with its three kinds of argument; an argument of digits stands for the number it spells |
| `Connections.Connection.ShowArticle` | src/db_sqlite3.c:304-419 | the reply text and the new pointer |
| `Connections.Connection.XoverCommand` | src/server.c:630-706 | the handler |
| `Connections.Connection.ServeLine` | src/server.c:1562-1770 | pending switch, reading a line, dispatch, mandatory TLS, handler: the whole new state of session and store |
| `Admin.Tool.Run` | src/cdpnntpadm.c:286-434 | guards, keys, a flag that breaks the SQL text, and the one change; a failed guard or statement changes nothing |
| `Admin.GrantKept` | src/cdpnntpadm.c:393-430 | an ACL row is there only if it was before or this command inserted it, and its subjects exist |
| `Admin.AdminKeepsNumbers` | src/cdpnntpadm.c:286-318 | every administration command keeps the numbering invariant |
| `AdminFacts.AccessIff` | src/db_sqlite3.c:980-1010 | a user has access by a row of their own, or by a membership and a row of that role, and not otherwise |
| `AdminFacts.GrantStep` | src/cdpnntpadm.c:393-430 | for every command and every row of an ACL table: it is there afterwards if and only if the command went through and inserts it, or it was there and the command did not remove it, itself or with a subject |
| `AdminFacts.GrantAndTakeBack` | src/cdpnntpadm.c:393-402 | addacluser gives access, and delacluser then restores the tables as they were |
| `AdminFacts.GrantGoes` | src/cdpnntpadm.c:393-430 | which of these commands go through |
| `AdminFacts.NameGoes` | src/cdpnntpadm.c:286-392 | and which of the others |
| `AdminFacts.GroupStep` | src/cdpnntpadm.c:286-318 | which groups there are after any command, their flags and numbers |
| `AdminFacts.UserStep` | src/cdpnntpadm.c:319-390 | which users, and their hashes |
| `AdminFacts.RoleStep` | src/cdpnntpadm.c:403-414 | which roles |
| `Cascade.CascadeIs` | database/postgres_db_struct.sql:47-88 | the rows a cascading delete reaches, in any number of rounds, are the row and those that refer to it |
| `Cascade.GroupDeleteIsCascade` | src/db_postgres.c:1162-1186 | the SQLite group delete leaves the tables the cascade leaves, and of postings exactly those some group still names |
| `Cascade.UserDeleteIsCascade` | src/db_postgres.c:1648-1674 | the same for users |
| `Cascade.RoleDeleteIsCascade` | src/db_postgres.c:1336-1376 | the same for roles |
| `System.ReachableIsSound` | src/server.c:1500-1547 | in every reachable state of any mix of sessions and administration the numbers of each group are exactly 1..high, used once, every row has posting and group, all ids were issued, and no ACL row dangles |
| `System.RunOnlyLoses` | src/db_sqlite3.c:904-962 | over any run, messages already numbered only lose rows |
| `System.StoredArticleRoundTrip` | src/server.c:1439-1461 | for every accepted POST and every later state with the article still in the group: its number is kept and unique, BODY is byte for byte what followed the blank line, HEAD is the generated lines, the edited header and the dot line, ARTICLE these lines and that header, CRLF and that body |
| `Retrieval.AskedByNumber` | src/db_sqlite3.c:344-452 | ARTICLE, HEAD, BODY and STAT with a number, any number: the message that has it in the selected group, which becomes the current article; 430, with the pointer where it was, exactly when none has |
| `Retrieval.AskedByText` | src/db_sqlite3.c:438-452 | with a text that starts like a number and is none: by the number SQLite reads from it, if any |
| `Retrieval.AskedBare` | src/server.c:773-789 | without an argument: the current article, or 430 |
| `Retrieval.AskedById` | src/server.c:752-767 | with a message-id: that message, which becomes the current article, or 430 when it is not in the group |
| `Retrieval.IdComesBack` | src/server.c:735-767 | the id looked for is the id the client sent if and only if its host name is free of '>', space, single quote, CR and LF |
| `Retrieval.ReplyIsTheArticle` | src/server.c:713-790 | in any run, for every accepted POST and any later session of that group, "body N", "head N", "article N", "stat N" in any letter case and the same with the id (for those host names) are answered with exactly the status line and the body as received, the stored header and the dot line, the stored header, CRLF and that body, or nothing more; and the article is the current one afterwards |
| `Retrieval.StatusInFull` | src/db_sqlite3.c:363-378 | the four status lines, spelled out |
| `Retrieval.BareShowsThePicked` | src/db_sqlite3.c:350-361 | in any run, a bare command that is the session's next after it picked article N by number or id is answered with the article that has the number N, whatever others do in between |
| `Replies.SplitsBackIff` | src/db_sqlite3.c:304-419 | splitting header, CRLF and body at the first blank line gives them back if and only if the header ends in CRLF and holds no blank line |
| `Replies.EndsOnceIff` | src/db_sqlite3.c:304-419 | the dot line stands only at the end if and only if there is none in front of the body and the body has only its last |
| `Replies.ParsesBackIff` | src/db_sqlite3.c:304-419 | both together, for any status line, header and body |
| `Replies.BodyEndsOnce` | src/server.c:1156-1179 | what arrives with one dot line is stored with one |
| `Replies.MarkedIff` | src/db_sqlite3.c:304-419 | joined lines hold an empty line or a dot line exactly when one of them, the first apart, is empty or a dot |
| `Replies.ArticleReplyParses` | src/server.c:1439-1461 | for client headers of whole lines, whatever the edit makes of them, the reply to ARTICLE comes apart into stored header and body if and only if the last line keeps its break, no line left is empty or a dot, and the body has one dot line |
| `Replies.HeadEndsOnceIff` | src/db_sqlite3.c:304-326 | the dot line HEAD appends stands at the end, and only there, if and only if the header ends in CRLF and nothing in front holds one |
| `Replies.HeadReplyEnds` | src/db_sqlite3.c:304-326 | for client headers of whole lines: if and only if the last line keeps its break and no line left is a dot |
| `PostExample.OneGroupIsAccepted` | src/server.c:1017-1556 | a posting to one open, permitted group with room is answered 240 |
| `PostExample.FirstArticle` | src/server.c:1017-1556 | there is a run whose third event is a POST of 20 bytes answered 240 |
| `System.AcceptedStep` | src/server.c:1554 | only an accepted POST is answered with 240 |
| `System.CounterMovesByOne` | src/database.c:93-154 | over any event the number stays, or a command raises it by one |
| `System.IdsAreFresh` | src/database.c:93-154 | over any run the id a command would give differs from every id taken before, by accepted POSTs and by those that died partway, and meets no posting and no body file |
| `System.AccessIsYounger` | src/db_sqlite3.c:980-1010 | whoever has access has it by rows inserted after the latest creation of every user, role and group they name |
| `SessionRuns.SoundUnlessLost` | src/server.c:713-908 | over any event, whoever acts and whatever the ACLs, a session's sound pointer stays sound if and only if the event is neither its own LISTGROUP of a denied group that is too small nor the deletion of its group while an article is selected |
| `SessionRuns.PointersStaySound` | src/server.c:713-908 | so between any two moments without those two events, in every interleaving of many sessions, the pointer stays NULL or an article of its group |
| `SessionRuns.BareArticleNeverMissing` | src/server.c:786-789 | and then a bare ARTICLE, HEAD, BODY or STAT never answers 430 once an article is selected |
| `SessionRuns.HandlersNeedPass` | src/server.c:1562-1642 | with authentication on, any other handler is reached only if the latest AUTHINFO handled was an accepted PASS; with ACLs the session runs under the accepted name |
| `Login.PasswordComesBack` | src/server.c:1739-1763 | AUTHINFO PASS reads a password as it was typed if and only if it is one word without a single quote, a line feed at most at its end |
| `Login.OutOfReach` | src/server.c:1739-1763 | whatever is typed, a password with a space, a CR or an earlier line feed is never read |
| `Login.LoginAnswer` | src/server.c:292-370 | in any run, AUTHINFO USER and PASS, one after the other in a session, are answered 381, and then 501, 281 or 482 by the word read and the hash stored at that moment, whatever other sessions do in between |
| `Login.LoginRoundTrip` | src/cdpnntpadm.c:363-377 | after adduser and without deluser the answer is 281 if and only if the word read hashes like the password set; after deluser and without adduser it is never 281 |
| `Login.OwnPassword` | src/cdpnntpadm.c:347-377 | typing the password set logs in if it is such a word; and only then, when no other word hashes alike |
| `Login.NoWayIn` | src/cdpnntpadm.c:347-377 | with a space, a CR or an earlier line feed in it, nothing typed logs in, when no other word hashes alike |
| `Login.TwoWordsAreRejected` | src/server.c:322 | the password "correct horse", which adduser accepts, is answered 482 unless "correct" hashes alike |
| `Login.TwoLinesAreRejected` | src/server.c:1739 | a password of two lines, which adduser accepts, logs nobody in, whatever is typed, when no other word hashes alike |
| `Login.BadPasswords` | src/cdpnntpadm.c:352-360 | adduser accepts these two; of the first one word is read, the second has a line feed before its end |
| `SessionRuns.TlsNeverReverts` | src/server.c:1701-1728 | TLS once active stays active |
| `SessionRuns.SwitchIsClean` | src/server.c:406-431 | a switch never happens while authenticated, and the next command, if one comes, starts without group and article |
| `SessionRuns.SwitchesOnce` | src/server.c:1701-1728 | a session switches at most once |
| `SessionRuns.NewSession` | src/server.c:1660-1687 | a session is opened without a group or an article, logged in only if no login is needed, on TLS only if its connector is |
| `SessionRuns.DeadStaysDead` | src/server.c:1774-1800 | a connection that has ended is never answered again and changes nothing |
| `SessionRuns.GroupAtEvent` | src/server.c:805-843 | in any run, GROUP selects a group if and only if it exists and the user has access at that moment; else the session stays as it was |
| `SessionRuns.GroupWasSelected` | src/server.c:805-908 | whoever has a group selected selected it by an earlier GROUP with access at that moment, or by an earlier LISTGROUP, and it existed then |

## Left out

- Sockets, `select`, OpenSSL and threads: received data is a sequence of chunks, a handshake a yes or no.
- Interleaving inside one command: numbering and id uniqueness are claimed for command-level steps only.
- SQL text building: statements are their effect; names in a Newsgroups line are looked up without the quotes doubled.
- HeaderLines.EditIsFiltering: its first two conditions are sufficient, not necessary; HeaderLines.EditFiltersIff states the exact condition for all three passes together.
- What SQLite makes of an article argument that does not consist of digits.
- Failures of file operations other than on the counter file.
- The regex checks of the header, SHA-256, configuration, logging, signals.
- Output of LIST, XGTITLE, HELP, DATE, MODE READER, CAPABILITIES and XHDR; `speccmd` with it.
- The MySQL backend, the PostgreSQL backend apart from its three cascading deletes, and bodies or the counter kept in a database.
- Reply texts other than those of ARTICLE, HEAD, BODY and STAT: replies are their codes and figures.
- adduser with a password typed at a prompt: the model takes the password from the command line.
