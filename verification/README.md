# Verified cores of the HTTP cache server

This project models five self-contained cores of the server and proves their hard properties. Each
core keeps the form of the source: structures linked by pointers are classes whose methods relink
them in place, loops stay loops, and pure functions stay functions. Each method is proved against a
specification function or sequence, and the lemmas say what the specification means.

- **Timers** (`RbTree`, `RbTheory`, `TimerQueue`, `EventLoop`). The intrusive red-black tree with
  parent links and one shared sentinel; insert and delete with every fix-up case; the timer loop, whose
  callbacks arm and cancel timers while it drains the tree. The tree is proved to be a sequence of
  nodes, the event loop to be an ordered queue, and the loop to fire exactly what was due.
- **HTTP request parser** (`HttpChars`, `HttpTables`, `HttpArms`, `HttpBytewise`, `HttpRun`, `HttpExecute`,
  `HttpBody`, `HttpMessage`, `HttpDeclared`, `HttpNames`, `HttpVersion`, `HttpConnection`, `HttpHeaders`,
  `HttpFraming`, `HttpNotices`, `HttpLines`, `UrlParser`, `UrlExact`). `HttpArms` is the automaton, one arm of the switch after the other, for
  one byte. `HttpExecute` is `http_parser_execute` with its marks, callbacks on slices, loops over
  runs of bytes and jumps over bodies; it is proved to refine the automaton run byte by byte, however the input is
  cut into calls. `HttpBody` proves which lengths are accepted and that the body bytes delivered add up to
  them (sections 3.3.3 and 4.1 of RFC 7230). `HttpMessage` proves that the digits of a Content-Length header
  decide how many body bytes its message delivers, `HttpDeclared` the same over whole runs for every
  Content-Length and chunk size of the input. `HttpNames` states which words the letter by letter matching recognises: header
  names, methods, and the final transfer coding, where a comma directly behind a chunked coding is taken for a letter
  (http_parser.c:1669-1671), so that "chunked,chunked" is not recognised. `HttpVersion` and `HttpConnection` do the same for the version and the words
  of Connection values, where a comma behind a first part of a word is likewise taken for a letter (http_parser.c:1631-1660),
  a comma at the beginning of a value is no delimiter, and a word in front of a folded line is lost.
  `HttpHeaders` and `HttpFraming` read the version and the headers off the input and prove that in every run they alone
  decide how the body is framed, whether the request is refused, and whether another one may follow; `HttpNotices` says
  which notices are given, and `HttpLines` which line ends, targets and chunks are accepted. `HttpTables` compares the
  character classes with the alphabets and tables of the source. `UrlParser` is the two-level URL parser, and
  `UrlExact` the same by the positions of the delimiters.
- **LRU cache** (`CacheNode`, `HashTable`, `LruTheory`, `Lru`). A circular list and hash chains that
  share their nodes and agree after every step; what stays cached over whole traces of requests.
- **MD5** (`Md5`, `Md5Known`). Buffering across updates, padding, unrolled rounds with rewritten functions:
  the digest of RFC 1321 (sections 3.1 to 3.5) of the concatenated input.
- **Chunked encoder and numbers** (`HttpReply`, `HttpChunked`, `Digits`, `Number`). What the encoder
  queues is what the parser decodes; printing a number and reading it back.

Ghost state: a tree node records its index in the in-order sequence, the range of its subtree and its
black height; members of lists and hash chains record their places. With these, every invariant relates a node to its
neighbours only.

Parameters in place of foreign code: what a timer callback does is a script of arming and cancelling
calls; hash and compare are functions, compare being an equivalence that respects the hash; parser
callbacks return 0 and are recorded as a sequence of calls; the current time is a field.

Verify with `dafny verify dfyconfig.toml`.

## Model

| member | source | states |
|---|---|---|
| `RbTree.TimerLessIsLess` | cc_util/cc_rbtree.c:74-82 | the cast of the key difference to int orders two keys as plain comparison does whenever they are less than 2^31 apart, wrap-around included |
| `RbTree.TimerOrderExactly` | cc_util/cc_rbtree.c:74-82 | for all pairs of keys, the cast order is the plain order if and only if the distance between them, taken modulo 2^32, lies in the lower half (for the smaller key first: the distance less one) |
| `RbTree.WindowIsSharp` | cc_util/cc_rbtree.c:74-82 | two keys exactly 2^31 apart are ordered the wrong way round when the greater comes first: no wider window will do |
| `RbTree.Tree.constructor` | cc_util/cc_rbtree.h:26-30 | an empty tree: black sentinel as root, invariant established |
| `RbTree.Tree.RotateLeft` | cc_util/cc_rbtree.c:214-231 | keeps parent links, ranges and the in-order sequence; states every link that changes; the sentinel is not in the frame, so its parent field survives |
| `RbTree.Tree.RotateRight` | cc_util/cc_rbtree.c:233-250 | the mirror image of RotateLeft |
| `RbTree.Tree.WalkValue` | cc_util/cc_rbtree.c:58-66 | ends, at a missing child; if exactly the first k keys are not greater than the new one, the child is the gap behind them: equal keys stay in insertion order |
| `RbTree.Tree.WalkTimerValue` | cc_util/cc_rbtree.c:74-82 | the same for the walk that compares by the sign of the difference cast to int |
| `RbTree.Tree.Attach` | cc_util/cc_rbtree.c:67-71 | the new red leaf appears at its gap in the in-order sequence and nowhere else |
| `RbTree.Tree.InsertPassLeft` | cc_util/cc_rbtree.c:21-37 | one pass of the insert fix-up, all its cases: at most the red-red pair at the returned node remains and it is strictly closer to the root |
| `RbTree.Tree.InsertPassRight` | cc_util/cc_rbtree.c:38-54 | the mirror image of InsertPassLeft |
| `RbTree.Tree.InsertFixup` | cc_util/cc_rbtree.c:20-56 | the fix-up loop ends with the full invariant: black root, no red node with a red child, equal black heights; it makes at most one pass more than the black height of the root |
| `RbTree.Tree.Insert` | cc_util/cc_rbtree.c:6-56 | inserting keeps the invariant, and the in-order sequence gains the node at one place: behind the last key that is not greater |
| `RbTree.Tree.Min` | cc_util/cc_rbtree.h:48-53 | the leftmost node of a subtree is the first of its range in the sequence; in a balanced tree the steps are fewer than the level of the start |
| `RbTree.Tree.Replacement` | cc_util/cc_rbtree.c:95-104 | which node is unlinked: the node itself or its in-order successor, with the one child that moves up |
| `RbTree.Tree.DeleteRoot` | cc_util/cc_rbtree.c:105-113 | the early return for a root that is unlinked |
| `RbTree.Tree.DeleteLow` | cc_util/cc_rbtree.c:115-122 | unlinking a node with at most one child loses exactly that node and leaves one black missing at the child if the node was black |
| `RbTree.Tree.DeleteHigh` | cc_util/cc_rbtree.c:115-150 | the successor takes links, colour and place of the node, by relinking: every other node keeps its identity and key |
| `RbTree.Tree.DeletePassLeft` | cc_util/cc_rbtree.c:159-183 | one pass of the delete fix-up, all four cases: the shortage is repaired or moves strictly closer to the root, read through the parent field of the sentinel where needed |
| `RbTree.Tree.DeletePassRight` | cc_util/cc_rbtree.c:184-208 | the mirror image of DeletePassLeft |
| `RbTree.Tree.DeleteFixup` | cc_util/cc_rbtree.c:159-211 | the fix-up loop ends with the full invariant, after at most one pass more than the black height of the root |
| `RbTree.Tree.Delete` | cc_util/cc_rbtree.c:90-212 | deleting any node keeps the invariant; the in-order sequence of node objects loses exactly that node; its fields are cleared |
| `RbTree.Tree.Next` | cc_util/cc_rbtree.c:252-269 | the successor is the next node of the in-order sequence, or NULL for the last, though the parent field of the root may be stale; in a balanced tree the steps are at most the level of the root |
| `RbTree.Tree.Visit` | cc_util/cc_rbtree.c:252-269 | from the minimum, repeated Next visits every node exactly once, in in-order sequence |
| `RbTree.Tree.SplitsAtRank` | cc_util/cc_rbtree.c:58-88 | in a tree sorted by key (for the timer walk: with keys within 2^31 of the new one) the new key has a place, so Insert determines where the node goes |
| `RbTheory.InOrderRange` | cc_util/cc_rbtree.c:6-212 | each subtree walked over its links is the range of the sequence that its node records |
| `RbTheory.OrderIsInOrder` | cc_util/cc_rbtree.c:6-212 | the sequence that insert and delete are stated about is the in-order walk of the child links |
| `RbTheory.BlacksAreHeight` | cc_util/cc_rbtree.c:6-212 | every way down from a node passes as many black nodes as its black height, and has at most twice as many nodes, plus one below a red node |
| `RbTheory.EqualBlackHeights` | cc_util/cc_rbtree.c:6-212 | any two ways from the root to a missing child pass equally many black nodes |
| `RbTheory.SizeFromBlackHeight` | cc_util/cc_rbtree.c:20-54 | a subtree of black height b holds at least 2^b - 1 nodes |
| `RbTheory.HeightBound` | cc_util/cc_rbtree.c:20-88 | every way down a tree of n nodes has length h with 2^h <= (n+1)^2, that is h <= 2*log2(n+1) |
| `RbTheory.InsertCounted` | cc_util/cc_rbtree.c:6-88 | an insert into n nodes takes s comparisons and p fix-up passes with 2^s <= (n+1)^2 and 2^p <= 2*(n+2) |
| `RbTheory.DeleteCounted` | cc_util/cc_rbtree.c:90-212 | a delete from n nodes takes s steps down to the successor and p fix-up passes with 2^s <= (n+1)^2 and 2^p <= 2*n |
| `TimerQueue.DrainSplit` | cc_event/cc_event.c:90-111 | what the timer loop fires depends on the due entries alone, and what is left is what the callbacks made of the others |
| `TimerQueue.DrainLeavesLater` | cc_event/cc_event.c:90-111 | the loop leaves only keys above the current time |
| `TimerQueue.FiredExactly` | cc_event/cc_event.c:90-111 | an entry fires if and only if it was due and no earlier callback of the run cancelled or re-armed its timer |
| `TimerQueue.FiredInOrder` | cc_event/cc_event.c:90-111 | what fires is a subsequence of the due entries: in key order, ties in arming order |
| `TimerQueue.FiredOrdered` | cc_event/cc_event.c:90-111 | what the loop fires is in non-decreasing key order |
| `TimerQueue.CallbackDue` | cc_event/cc_event.c:90-111 | callbacks that arm for later only never add a due entry: the measure by which the loop ends |
| `TimerQueue.ApplyAllOrdered` | cc_event/cc_event.c:217-229 | arming and cancelling keep the queue ordered by key |
| `TimerQueue.WithoutAt` | cc_event/cc_event.c:224-229 | cancelling a timer removes its one entry |
| `TimerQueue.InsertAt` | cc_event/cc_event.c:217-223 | arming puts the entry behind the last key that is not greater |
| `TimerQueue.NeverEnds` | cc_event/cc_event.c:90-111 | a timer whose callback arms it for the current time is due again after any number of passes: the condition on callbacks cannot be dropped |
| `EventLoop.KeyLater` | cc_http/cc_http_client_request.c:209-227 | a callback that arms for later only leaves each key as it was, 0, or later than the current time |
| `EventLoop.FiredNext` | cc_event/cc_event.c:90-111 | one pass of the loop, in whatever order it fires, leaves fewer due timers, and what has fired was due at the start and fired once |
| `EventLoop.Loop.constructor` | cc_util/cc_rbtree.h:26-30 | an event loop without timers |
| `EventLoop.Loop.AddTimeEvent` | cc_event/cc_event.c:217-223 | a timer with a positive key enters the tree where the ordered queue has it; key 0 does nothing |
| `EventLoop.Loop.DelTimeEvent` | cc_event/cc_event.c:224-229 | a timer with a positive key leaves the tree and gets key 0; afterwards, as before, exactly the timers with positive keys are in the tree |
| `EventLoop.DeadlineIsSum` | cc_http/cc_http_client_request.c:209-220 | the deadline is the current time plus the timeout, exactly where the sum fits, and otherwise modulo 2^64 |
| `EventLoop.Loop.SetTimer` | cc_http/cc_http_client_request.c:209-220 | the key becomes the current time plus the timeout, exactly if that fits and else modulo 2^64; the old link is removed before the new key is set, so a timer is linked at most once, and the queue is the old one without the timer, with the new deadline inserted |
| `EventLoop.Loop.DelTimer` | cc_http/cc_http_client_request.c:221-227 | cancels if armed; either way the timer is out of the tree with key 0 |
| `EventLoop.Loop.RunCallback` | cc_http/cc_http_client_request.c:209-227 | any sequence of set-timer and delete-timer calls, at any keys, keeps a timer in the tree exactly when its key is positive and leaves each key as the last call on its timer says; with all keys in one window it does to the tree what it does to the queue |
| `EventLoop.Loop.FirstDue` | cc_event/cc_event.c:94-98 | finds the first entry of the queue exactly when it is due |
| `EventLoop.Loop.Pass` | cc_event/cc_event.c:92-109 | one pass at any keys: fires the first timer of the tree if and only if it is due, taking it out before its callback runs; each key afterwards is what the callback left |
| `EventLoop.Loop.ProcessTimerEvents` | cc_event/cc_event.c:90-111 | for all callbacks that cancel timers or arm for later the loop ends, at any keys; it fires only timers that were due, each once, makes none due, and ends when the first timer of the tree is not due; with all keys in one window it fires the entries of TimerQueue.Drain, in key order, and leaves its rest |
| `EventLoop.Loop.LinkedOnce` | cc_event/cc_event.c:217-229 | a timer is in the tree, at one place only, exactly when its key is positive |
| `EventLoop.FiresArmed` | cc_event/cc_event.c:90-111 | in every run, a fired timer is armed and due at that time, and a pass that fires nothing finds no armed timer or one that is not due |
| `EventLoop.Loop.RunOps` | cc_event/cc_event.c:90-111 | every run of set-timer, delete-timer and timer-loop steps and of passing time, callbacks that arm due timers included: a timer is in the tree exactly when its key is positive, each key is what the last step on its timer left, and a pass fires if and only if the first timer of the tree, which lists the armed timers once each with their keys, is due, and then that timer |
| `EventLoop.RunFromZero` | cc_event/cc_event.c:90-111 | all of this for every run from zeroed timers |
| `EventLoop.DueAtItsTime` | cc_http/cc_http_client_request.c:209-220 | in every run, a timer set at time m for d > 0 milliseconds and not touched since is not fired while the time is below m + d, and is armed and due from then on |
| `EventLoop.LiveMeans` | cc_event/cc_event.c:217-229 | the window condition is: ordered, and all keys within 2^31 of one another |
| `HttpTables.AsciiCodes` | third/http_parser/http_parser.c:416-432 | the byte constants of the model are the characters that the source writes |
| `HttpTables.UnhexTable` | third/http_parser/http_parser.c:218-226 | the value of a hexadecimal digit is its place in "0123456789abcdef" or "0123456789ABCDEF", and every other byte has none |
| `HttpTables.TokenTable` | third/http_parser/http_parser.c:188-215 | exactly the letters, digits and fifteen marks of RFC 7230 are token characters, letters lower-cased |
| `HttpTables.LowerSetsBit` | third/http_parser/http_parser.c:418 | lower-casing sets bit 5 and changes no other |
| `HttpTables.UrlTable` | third/http_parser/http_parser.c:235-262 | exactly the printable ASCII characters but space, # and ? are plain URL characters |
| `HttpTables.ClassTable` | third/http_parser/http_parser.c:418-432 | the classes of host, user information and hexadecimal characters, character by character |
| `HttpTables.ValueTable` | third/http_parser/http_parser.c:446-451 | a header value admits exactly the bytes other than control characters and DEL, and the tab |
| `HttpTables.SpelledValue` | third/http_parser/http_parser.c:1989-2040 | the value of digits is the positional value of their places in "0123456789abcdef" or in the upper-case alphabet |
| `HttpTables.DigitsAreSpelled` | third/http_parser/http_parser.c:1989-2040 | a sequence of bytes is taken for hexadecimal digits if and only if each stands in one of the two alphabets |
| `HttpTables.DigitTable` | cc_util/cc_snprintf.c:244-245 | the printed digit of v stands at place v of "0123456789abcdef" or of "0123456789ABCDEF" |
| `HttpBytewise.StartSound` | third/http_parser/http_parser.c:719-727 | the states before the URL keep the parser invariant, with no mark set |
| `HttpBytewise.UrlSound` | third/http_parser/http_parser.c:1022-1093 | the URL states keep the parser invariant with only the URL mark set, which the end of the URL clears |
| `HttpBytewise.VersionSound` | third/http_parser/http_parser.c:1095-1202 | the version states keep the invariant with no mark set |
| `HttpBytewise.HeaderSound` | third/http_parser/http_parser.c:1204-1252 | the states between header lines keep the invariant and set a mark only for the name or value they begin |
| `HttpBytewise.HeadersEndSound` | third/http_parser/http_parser.c:1793-1935 | the end of headers keeps the invariant: a body state is entered only with a length that is neither 0 nor the unset value |
| `HttpBytewise.FieldSound` | third/http_parser/http_parser.c:1254-1389 | a header name keeps the invariant with only its own mark |
| `HttpBytewise.ValueSound` | third/http_parser/http_parser.c:1480-1704 | a header value keeps the invariant with only its own mark; the states asserted unreachable are not reached |
| `HttpBytewise.ChunkSound` | third/http_parser/http_parser.c:1989-2109 | the chunk states keep the invariant: the chunked flag is set, sizes stay in range, and data is followed by a line end with length 0 |
| `HttpBytewise.StepSound` | third/http_parser/http_parser.c:713-2119 | every byte leads from an invariant state to an invariant state or an error, and after it the mark of the new state is the only one that can be set |
| `HttpRun.RunSplit` | third/http_parser/http_parser.c:642-2150 | running on from where a part of the input led is running on the whole input: state, remaining length, header count and events agree |
| `HttpRun.CutsDoNotMatter` | third/http_parser/http_parser.c:642-2150 | any way of cutting the input into calls gives the same outcome |
| `HttpRun.HeaderLimit` | third/http_parser/http_parser.c:154-162 | a byte overflows the headers if and only if 81920 bytes have been counted before it |
| `HttpRun.FieldRun` | third/http_parser/http_parser.c:1256-1373 | a run of name characters has the effect of the characters one by one, or overflows the header limit |
| `HttpRun.ValueRun` | third/http_parser/http_parser.c:1482-1704 | a run of value bytes has the effect of the bytes one by one, or overflows the header limit |
| `HttpRun.BodyRun` | third/http_parser/http_parser.c:1937-1972 | body bytes short of the last one only reduce the remaining length |
| `HttpRun.ChunkRun` | third/http_parser/http_parser.c:2071-2092 | the whole of a chunk: all its bytes are delivered and the line end is expected next |
| `HttpRun.IdentityRun` | third/http_parser/http_parser.c:1937-1987 | the whole of a body of declared length: all its bytes are delivered and the last one completes the message |
| `HttpExecute.PerformDelivers` | third/http_parser/http_parser.c:94-145 | the callback macros deliver, slice by slice, the bytes that lie under marks and the notifications, in order |
| `HttpExecute.SingleArm` | third/http_parser/http_parser.c:713-2119 | an arm for one byte leaves the call in step with the one-byte-at-a-time run, or ends it with the same count, state and events |
| `HttpExecute.FieldLoop` | third/http_parser/http_parser.c:1254-1389 | the loop over a header name, with its inner skip, is in step with the run; the count is taken once for all its bytes and does not wrap around 32 bits |
| `HttpExecute.ValueLoop` | third/http_parser/http_parser.c:1480-1704 | the loop over a header value, with its inner skip that steps over one unexamined byte at the header limit, is in step with the run or the run overflows too |
| `HttpExecute.ChunkDataArm` | third/http_parser/http_parser.c:2071-2092 | the jump over all chunk data in the input is in step with the run |
| `HttpExecute.IdentityArm` | third/http_parser/http_parser.c:1937-1972 | the jump over all body bytes in the input is in step with the run and completes the message at the declared length |
| `HttpExecute.EndOfInput` | third/http_parser/http_parser.c:2121-2142 | at the end of a call that used all its input at most one mark is set, so the assertion cannot fail, and its slice is delivered |
| `HttpExecute.ExecuteBytes` | third/http_parser/http_parser.c:710-2150 | one call has the outcome of the one-byte-at-a-time run on its input |
| `HttpExecute.HttpParser.constructor` | third/http_parser/http_parser.c:2217-2226 | a new parser satisfies the invariant |
| `HttpExecute.HttpParser.Execute` | third/http_parser/http_parser.c:642-2150 | every call: an error state does nothing, end of input is accepted between messages only, and otherwise bytes consumed, next state, count and delivered events are those of the bytewise run; on an error the code and position agree and only events of the run were delivered |
| `HttpExecute.Feed` | third/http_parser/http_parser.c:642-2150 | a parser fed any non-empty pieces in successive calls ends in the state, and has delivered the notifications and concatenated slices, of the whole input read byte by byte; if that run fails other than by the header limit, the parser fails with the same code and has delivered only events of the run |
| `HttpNames.HeaderName` | third/http_parser/http_parser.c:1204-1389 | a header name is recognised if and only if it is, in any case of letters, one of the five names the parser knows; the transfer-encoding flag is set by any name that begins so; the name is delivered byte for byte |
| `HttpNames.CorrectionFits` | third/http_parser/http_parser.c:969-1013 | a correction of the guessed method goes to a method whose name begins with the letters read so far |
| `HttpNames.EveryMethod` | third/http_parser/http_parser.c:925-1013 | the tables of first guesses and corrections lead to every method, each at a letter where the guess before it fails |
| `HttpNames.MethodSound` | third/http_parser/http_parser.c:925-1020 | bytes and a space are accepted as a method only if they spell exactly the name of the method stored |
| `HttpNames.MethodComplete` | third/http_parser/http_parser.c:925-1020 | each of the 34 methods is accepted under its own name and stored as itself |
| `HttpNames.ChunkedIsFinal` | third/http_parser/http_parser.c:1570-1700 | a transfer-encoding value ends as chunked only if chunked, in any case of letters, is the final coding of its list |
| `HttpNames.ChunkedExactly` | third/http_parser/http_parser.c:1570-1700 | a transfer-encoding value ends as chunked if and only if its last coding is chunked and stands where the parser looks for one: it takes the comma behind a coding that is chunked, or a first part of that word, for a further letter, and gives up behind an empty coding |
| `HttpNames.ChunkedOnProperLists` | third/http_parser/http_parser.c:1570-1700 | on lists whose earlier codings are proper and neither chunked nor a first part of it, the value ends as chunked if and only if its last coding is chunked |
| `HttpNames.ChunkedOnlyThere` | third/http_parser/http_parser.c:1717-1790 | no byte but the one after a header line whose value ended as chunked sets the chunked flag |
| `HttpNames.ChunkedBehindChunkedMissed` | third/http_parser/http_parser.c:1669-1671 | from a state where chunked was recognised, a comma and any bytes without a comma lead to a state where it is not |
| `HttpNames.ChunkedTwiceMissed` | third/http_parser/http_parser.c:1570-1700 | of two codings, the first being chunked, the second is never recognised |
| `HttpNames.ChunkedChunked` | third/http_parser/http_parser.c:1570-1700 | the value chunked,chunked does not end as chunked |
| `HttpNames.UrlAgrees` | third/http_parser/http_parser.c:1022-1093 | a URL accepted in a request line is delivered byte for byte and passes the first pass of the URL parser, which ends in the same state |
| `HttpLines.CrThenLf` | third/http_parser/http_parser.c:713-2109 | in every run, a carriage return read outside a body and within a request is followed by a line feed or the parser fails |
| `HttpLines.TargetExactly` | third/http_parser/http_parser.c:1022-1093 | the bytes behind a method, up to a space or line end, are accepted if and only if they are a URL by the positions of its delimiters |
| `HttpLines.TargetEnds` | third/http_parser/http_parser.c:1040-1093 | a space or line end behind a URL is refused if and only if the URL breaks off before its authority; a line end stands for version 0.9 |
| `HttpLines.LengthValue` | third/http_parser/http_parser.c:1540-1568 | what follows the first digit of a Content-Length value is accepted if and only if it is digits and then spaces and the decimal value of all digits is at most 2^64-7, which is then stored |
| `HttpLines.ChunksOnly` | third/http_parser/http_parser.c:1989-2109 | a run that comes back to the beginning of a chunk, or to the trailer, has read nothing but one chunk - size digits, extension, line end, as many bytes as the size says, line end - or a last size line |
| `HttpVersion.VersionExactly` | third/http_parser/http_parser.c:1095-1192 | bytes behind the URL are accepted if and only if they begin, behind spaces, HTTP/x.y or, for SOURCE only, ICE/x.y with digits x and y, and these digits are stored |
| `HttpVersion.VersionLine` | third/http_parser/http_parser.c:1095-1202 | a whole version and its line end lead to the headers with the two digits stored |
| `HttpConnection.WordsOfProperLists` | third/http_parser/http_parser.c:1406-1704 | on a one-line Connection value whose elements but the last do not break off within a word, close, keep-alive and upgrade are recognised, in any case of letters, if and only if they are elements |
| `HttpConnection.MissedBehindPart` | third/http_parser/http_parser.c:1631-1660 | in a value of two elements of which the first breaks off within one of the words, the comma is taken for a letter and nothing is recognised |
| `HttpConnection.MissedWhenFolded` | third/http_parser/http_parser.c:1717-1728 | in a value of two lines of which the first is a single element, nothing is recognised |
| `HttpConnection.CloseOnlyAlone` | third/http_parser/http_parser.c:1631-1704 | close is recognised, but not in clo,close nor in front of a folded line |
| `HttpConnection.ValueNext` | third/http_parser/http_parser.c:1530-1704 | a byte of a Connection value recognises a word if and only if it is a comma behind an element that is the word, found where the parser looks for one |
| `HttpHeaders.HeadTold` | third/http_parser/http_parser.c:642-2150 | in every run, the parser knows the digits of the version and, of the Connection headers read so far, trailer included, exactly which words they have |
| `HttpHeaders.RequestEndsAs` | third/http_parser/http_parser.c:2182-2197 | in every run, a request ends in waiting for another if and only if both version digits are positive and no Connection header of the input has close, or one digit is zero and some Connection header has keep-alive; otherwise the parser is closed |
| `HttpHeaders.ClosedForGood` | third/http_parser/http_parser.c:719-727 | a closed parser takes line ends and refuses any other byte as a closed connection |
| `HttpFraming.OneLineChunked` | third/http_parser/http_parser.c:1570-1700 | on one line, ending as chunked is the condition of HttpNames.ChunkedExactly |
| `HttpFraming.RunFramed` | third/http_parser/http_parser.c:642-2150 | in every run, the flags about the body are what the names and values of the headers read so far say |
| `HttpFraming.HeadersFramed` | third/http_parser/http_parser.c:1793-1935 | in every run, the line feed that ends the headers leads where they say: Transfer-Encoding with Content-Length is refused, CONNECT ends, a value that ends as chunked leads to chunks, else a positive Content-Length to that many bytes, else an asked upgrade to its end, else another transfer coding is refused, and else the request ends |
| `HttpFraming.BodyStops` | third/http_parser/http_parser.c:1937-2109 | from a body to the end of its request, whatever the trailer says, the parser hands over to another protocol if and only if the headers announced it |
| `HttpNotices.StepNotified` | third/http_parser/http_parser.c:713-2119 | every byte gives exactly the notices of its step: which, how many and in which order |
| `HttpNotices.CountExactly` | third/http_parser/http_parser.c:713-2109 | every byte of a run is counted towards the header limit but those of bodies and the line ends of chunks, and the count starts afresh exactly at the end of the headers, of a size line and of a chunk |
| `HttpNotices.NoticesBalance` | third/http_parser/http_parser.c:642-2150 | in every run, each request is begun and completed exactly once, its headers are completed exactly once between the two, and every chunk that has begun is completed |
| `HttpBody.LengthDigits` | third/http_parser/http_parser.c:1540-1568 | Content-Length digits are accepted if and only if the value so far is at most 2^64-7, and then it is the exact decimal value |
| `HttpBody.ContentLengthHeader` | third/http_parser/http_parser.c:1434-1448 | a first Content-Length value is accepted if and only if its decimal value is at most 2^64-7, and is stored exactly |
| `HttpBody.ChunkDigits` | third/http_parser/http_parser.c:2005-2040 | further digits of a chunk size are accepted if and only if the value stays below 2^64-16, and then it is the hexadecimal value |
| `HttpBody.ChunkSizeDigits` | third/http_parser/http_parser.c:1989-2040 | a chunk size is accepted if and only if its hexadecimal value is below 2^64-16, and is stored exactly |
| `HttpBody.BodyBytesBalance` | third/http_parser/http_parser.c:1937-2109 | in every run without error, body bytes delivered plus bytes still owed equal the bytes owed before plus the lengths stored on entry to each body or chunk |
| `HttpBody.CompleteMessages` | third/http_parser/http_parser.c:1937-2109 | between messages nothing is owed: the body bytes delivered sum to the lengths stored on entry to each body or chunk |
| `HttpDeclared.DeclaredByDigits` | third/http_parser/http_parser.c:642-2150 | in every run from between messages, each length stored on entry to a body or chunk is the decimal value of the last Content-Length digits or the hexadecimal value of the last chunk size digits in the input |
| `HttpDeclared.BodyBytesByDigits` | third/http_parser/http_parser.c:642-2150 | in every run from between messages, body bytes delivered and still owed add up to the values of the digits that the input declares, and between messages nothing is owed |
| `HttpMessage.LengthFrame` | third/http_parser/http_parser.c:713-2119 | a byte changes the stored length only at the start of a message, in Content-Length digits, in chunk size digits or in a body |
| `HttpMessage.CodedRun` | third/http_parser/http_parser.c:1254-1790 | in every run, the chunked flag and the states of a transfer coding imply that a Transfer-Encoding header was seen |
| `HttpMessage.HeadersStep` | third/http_parser/http_parser.c:1204-1935 | behind a Content-Length of v, a header byte stays in the headers of that length, enters a body of exactly v bytes, or, only if v is 0 or the method CONNECT, ends the message |
| `HttpMessage.MessageRun` | third/http_parser/http_parser.c:1204-1987 | the same over runs: body bytes delivered and still owed add up to v until the message ends |
| `HttpMessage.DigitsDecide` | third/http_parser/http_parser.c:1434-1987 | from the digits d of a first Content-Length to the end of the message, the body bytes delivered number exactly the decimal value of d, and none for CONNECT |
| `HttpMessage.DeclaredBody` | third/http_parser/http_parser.c:1204-1987 | the same from the beginning of the header line, its name in any case of letters, whatever headers follow |
| `HttpChunked.SizeLine` | third/http_parser/http_parser.c:1989-2069 | the printed size of a chunk is read back as that size, and size 0 starts the trailer |
| `HttpChunked.AnySizeLine` | third/http_parser/http_parser.c:1989-2069 | any size line a client may send, with digits of either case, leading zeros and an extension, is read as the hexadecimal value of its digits |
| `HttpChunked.SpelledSizeLine` | third/http_parser/http_parser.c:1989-2069 | a size line whose digits stand at places of "0123456789abcdef" or of the upper-case alphabet is read as the positional value of these places |
| `HttpChunked.AnyChunk` | third/http_parser/http_parser.c:1989-2109 | any chunk, however its size is written, is read as exactly its data between a chunk header and a chunk end |
| `HttpChunked.ChunkedMessage` | third/http_parser/http_parser.c:1989-2109 | any list of chunks, ended by any size line of value 0 and an empty line, is accepted and completes one message at its last byte; its body is the data of the chunks, and the body bytes number the sum of the values of the size digits |
| `HttpChunked.ChunkRoundTrip` | cc_http/cc_http_client_reply.c:279-364 | a queued chunk is read back as exactly its data between a chunk header and a chunk end |
| `HttpChunked.ChunkedRoundTrip` | cc_http/cc_http_client_reply.c:279-392 | any non-empty pieces and the last chunk are accepted by the decoder, delivered unchanged and in order, and complete one message at the last byte |
| `HttpChunked.BodyOfPieces` | cc_http/cc_http_client_reply.c:279-364 | the delivered body bytes are the concatenation of the pieces |
| `HttpChunked.DeliversPieces` | cc_http/cc_http_client_reply.c:279-392 | the whole coding of any non-empty pieces delivers their concatenation as its body |
| `HttpChunked.MissingData` | cc_http/cc_http_client_reply.c:291-301 | for every size n of a chunk without data, the line end is read as data: for 1 the decoder fails, for 2 it delivers CR LF and awaits the line end, and above it delivers CR LF and awaits n - 2 more bytes |
| `HttpChunked.ReadBackIffHeld` | cc_http/cc_http_client_reply.c:303-341 | what is queued for a chunk is read back as the chunk if and only if its data was queued |
| `HttpReply.HttpContext.SendChunkedBody` | cc_http/cc_http_client_reply.c:279-364 | the queue grows by exactly one chunk if a buffer of the context holds the first byte of the data, by a chunk without data if none does, and not at all for an empty body |
| `HttpReply.HttpContext.SendForReading` | cc_http/cc_http_client_reply.c:279-364 | one queued chunk is read back as that chunk by every decoder if and only if a buffer of the context holds the first byte of its data |
| `HttpReply.SendBody` | cc_http/cc_http_client_reply.c:279-392 | for any list of parts that buffers hold, the queue grows by the coding of the non-empty ones and the last chunk, and every decoder delivers their concatenation |
| `HttpReply.HttpContext.SendLastChunked` | cc_http/cc_http_client_reply.c:366-392 | the queue grows by the last chunk, in a flagged node |
| `HttpReply.HttpContext.SizeNode` | cc_http/cc_http_client_reply.c:291-301 | the size node stands for the hexadecimal digits and the line end, without the printed 0x |
| `HttpReply.PutString` | cc_util/cc_snprintf.c:91-101 | the string directive copies as much as fits and changes nothing else |
| `Digits.NumeralValue` | cc_util/cc_snprintf.c:236-316 | the shortest numeral of a number in base 10 or 16 means that number |
| `Number.Widths` | cc_util/cc_snprintf.c:238-281 | 64-bit values have at most 20 decimal and 16 hexadecimal digits, so the temporary buffer is large enough |
| `Number.Digits32` | cc_util/cc_snprintf.c:253-259 | the 32-bit loop writes the decimal numeral |
| `Number.Digits64` | cc_util/cc_snprintf.c:260-281 | the 64-bit loops write the decimal or hexadecimal numeral: on 32-bit values both loops agree |
| `Number.Reverse` | cc_util/cc_snprintf.c:318-327 | reverses exactly the given part of the buffer in place |
| `Number.ThreeReversals` | cc_util/cc_snprintf.c:309-313 | reversing two parts and then the whole exchanges them |
| `Number.Exchange` | cc_util/cc_snprintf.c:309-313 | in the buffer, the three reversals put the digits in front of the padding |
| `Number.SprintfNum` | cc_util/cc_snprintf.c:236-316 | prints the number padded on either side to the width and cut off at the end of the buffer, and changes nothing outside, for every value, width and room |
| `Number.Str2Ull` | cc_util/cc_buffer.c:72-85 | accepts exactly digits behind an optional plus, with their value modulo 2^64 |
| `Number.Str2Ll` | cc_util/cc_buffer.c:55-71 | accepts exactly digits behind an optional sign, with their signed value; no overflow occurs |
| `Number.PrintAndReadUnsigned` | cc_util/cc_buffer.c:72-85 | printing any unsigned 64-bit value into any buffer with 20 bytes of room and reading it with str2ull gives the value back |
| `Number.PrintAndReadSigned` | cc_util/cc_buffer.c:55-71 | printing any signed value above -2^63 into any buffer with 21 bytes of room and reading it with str2ll gives the value back |
| `Number.UnsignedRoundTrip` | cc_util/cc_snprintf.c:236-316 | the text of every unsigned 64-bit value has that value for str2ull |
| `Number.SignedRoundTrip` | cc_util/cc_buffer.c:55-71 | every signed value printed in decimal has that value for str2ll, which is defined on it if and only if the value is not -2^63 |
| `UrlParser.ScanSound` | third/http_parser/http_parser.c:493-596 | for every input, the slices of the first pass are in bounds, in order and apart, and every byte outside them is a delimiter |
| `UrlParser.ScanUrl` | third/http_parser/http_parser.c:2433-2488 | the loop over all bytes computes the fold of the URL automaton; its unexpected-state assertion cannot fail and no 16-bit offset or length is truncated |
| `UrlParser.HostSound` | third/http_parser/http_parser.c:2246-2408 | the user information, host and port slices lie in order and apart inside the host part, which they cover but for delimiters; the port is digits |
| `UrlParser.ParseHost` | third/http_parser/http_parser.c:2328-2408 | the loop over the host computes the fold of the host automaton and accepts exactly its final states; no 16-bit offset or length is truncated |
| `UrlParser.ParsePort` | third/http_parser/http_parser.c:2508-2533 | accepts the digits if and only if their value is at most 65535, and returns the value, though it stops early |
| `UrlParser.UrlSound` | third/http_parser/http_parser.c:2415-2536 | on success all slices are in bounds, disjoint and in the order schema, userinfo, host, port, path, query, fragment, all other bytes are delimiters, a schema has a host, a host is not empty, and the port is the decimal value of its slice; CONNECT has host and port only |
| `UrlParser.UrlFields.ParseUrl` | third/http_parser/http_parser.c:2415-2536 | succeeds exactly on the accepted inputs and then stores exactly their slices and port; the port assertion cannot fail |
| `UrlExact.ScanExactly` | third/http_parser/http_parser.c:493-596 | the first pass accepts exactly the bytes whose class fits their position between the first delimiters, and cuts them at these: schema before "://", authority up to / or ?, path up to ? or #, query up to #, fragment behind it |
| `UrlExact.HostExactly` | third/http_parser/http_parser.c:2246-2348 | the second pass goes on exactly over user information before the first @, a name or an address in brackets with an optional zone, and a port of digits behind its colon, and cuts it there |
| `UrlExact.UrlExactly` | third/http_parser/http_parser.c:2415-2536 | on every input, the parser accepts and stores exactly what the positions of the delimiters say |
| `UrlExact.UrlDelimited` | third/http_parser/http_parser.c:2415-2536 | a query slice has ? just before it and a fragment slice #, a schema is followed by "://", user information by @, and a port has : before it; no path holds ? or #, and no query # |
| `UrlExact.BehindDelimiters` | third/http_parser/http_parser.c:573-630 | a byte behind the first ? that no # precedes, up to the first #, lies in the query; behind the first # and those that follow it at once everything lies in the fragment |
| `CacheNode.Ring.constructor` | cc_util/cc_list.h:17-21 | an empty ring |
| `CacheNode.Ring.InsertBackward` | cc_util/cc_list.h:33-39 | the node joins next to the head; both links of every node stay mutual inverses |
| `CacheNode.Ring.Delete` | cc_util/cc_list.h:41-48 | exactly the given node leaves, in constant time from the node alone; both links of every other node stay mutual inverses |
| `HashTable.NewestIsLast` | cc_util/cc_hash.c:61-74 | the node that lookup finds is the newest of its key, and there is none if and only if the key is absent |
| `HashTable.DeletePops` | cc_util/cc_hash.c:77-103 | deleting a key uncovers its previous node and leaves the nodes of other keys alone |
| `HashTable.LastInFirstOut` | cc_util/cc_hash.c:48-123 | through every run of inserts, deletes, removals and lookups, the nodes of each key are a stack of their own, on which inserts push and deletes pop |
| `HashTable.MatchesWithout` | cc_util/cc_hash.c:105-123 | removing one node takes exactly that node from the nodes of its key and leaves all others, in order |
| `HashTable.Table.constructor` | cc_util/cc_hash.c:27-45 | an empty table of at least four buckets |
| `HashTable.Table.Lookup` | cc_util/cc_hash.c:61-74 | finds the newest node of the key, or none |
| `HashTable.Table.Insert` | cc_util/cc_hash.c:48-58 | the table gains the node as its newest; every chain holds the nodes of its hash, linked newest to oldest |
| `HashTable.Table.Delete` | cc_util/cc_hash.c:77-103 | the table loses the newest node of the key and no other, which is handed out or given to the destroy callback; node_size follows |
| `HashTable.Table.Remove` | cc_util/cc_hash.c:105-123 | the table loses the given node, by identity, and no other; a node that is not there changes nothing |
| `HashTable.Table.SizeIsChains` | cc_util/cc_hash.c:48-123 | node_size is the sum of the lengths of all chains |
| `HashTable.Table.Run` | cc_util/cc_hash.c:48-123 | on the table, every lookup of every run answers with the top of the stack of its key |
| `LruTheory.HoldsMostRecent` | cc_util/cc_lru.c:22-45 | after every trace of requests, a cache of capacity c holds exactly the min(c, distinct) most recently requested keys in the order of their last request |
| `LruTheory.SmallerIsPart` | cc_util/cc_lru.c:22-45 | a smaller cache holds the newest part of what a larger one holds |
| `LruTheory.HitsGrow` | cc_util/cc_lru.c:22-45 | every hit of a smaller cache is a hit of a larger one |
| `LruTheory.HitIffFewSince` | cc_util/cc_lru.c:22-45 | a key requested before is a hit if and only if fewer than c distinct keys were requested since |
| `Lru.LruCache.constructor` | cc_util/cc_lru.c:3-20 | an empty cache |
| `Lru.LruCache.Lookup` | cc_util/cc_lru.c:22-31 | a hit moves the node to the front of list and sequence, a miss changes nothing; list and table keep agreeing |
| `Lru.LruCache.Insert` | cc_util/cc_lru.c:33-45 | a full cache drops exactly its least recently used node from list and table and gives that node to the destroy callback, then the new node becomes the most recent; the size never exceeds the capacity |
| `Lru.LruCache.Delete` | cc_util/cc_lru.c:47-55 | exactly the node of the key leaves list and table, and that node is given to the destroy callback |
| `Lru.ServeAll` | cc_util/cc_lru.c:22-45 | a new cache that serves any trace, inserting at each miss, ends with exactly the most recently requested keys |
| `Md5.RewrittenF` | cc_util/cc_md5.c:93-103 | F without AND-NOT equals F of section 3.4 of RFC 1321 |
| `Md5.RewrittenG` | cc_util/cc_md5.c:93-103 | G without AND-NOT equals G of section 3.4 of RFC 1321 |
| `Md5.StepIsOp` | cc_util/cc_md5.c:105-112 | the STEP macro does what an operation of section 3.4 of RFC 1321 says |
| `Md5.RoundOne` | cc_util/cc_md5.c:164-181 | the unrolled first round is operations 1 to 16 |
| `Md5.RoundTwo` | cc_util/cc_md5.c:183-200 | the unrolled second round is operations 17 to 32 |
| `Md5.RoundThree` | cc_util/cc_md5.c:202-219 | the unrolled third round is operations 33 to 48 |
| `Md5.RoundFour` | cc_util/cc_md5.c:221-238 | the unrolled fourth round is operations 49 to 64 |
| `Md5.Body` | cc_util/cc_md5.c:143-254 | a call on several blocks is the fold of single-block compressions |
| `Md5.FoldConcat` | cc_util/cc_md5.c:143-254 | compressing two stretches of blocks in turn is compressing their concatenation |
| `Md5.Md5Context.constructor` | cc_util/cc_md5.c:5-12 | a new context has absorbed the empty message |
| `Md5.Md5Context.Update` | cc_util/cc_md5.c:14-40 | however much the buffer holds and however long the data is, the context has absorbed the message with the data behind it |
| `Md5.Md5Context.Finish` | cc_util/cc_md5.c:42-69 | both padding cases and the length modulo 2^64: the registers are the fold over the padded message of sections 3.1 and 3.2 of RFC 1321 |
| `Md5.WordOctetValues` | cc_util/cc_md5.c:72-87 | a word is written as the octets of its number, low order first |
| `Md5.OctetsRead` | cc_util/cc_md5.c:114-126 | reading the octets of a word gives the word |
| `Md5.InitOctets` | cc_util/cc_md5.c:5-12 | the first registers are 01 23 45 67 and so on, low order octet first, as in section 3.3 of RFC 1321 |
| `Md5.Md5Context.Final` | cc_util/cc_md5.c:42-90 | the result is the MD5 digest of the absorbed message, and the context is cleared |
| `Md5.DigestOf` | cc_util/cc_md5.c:5-90 | however a message is cut into updates, the result is the MD5 digest of the whole message |
| `Md5Known.KnownAnswer` | cc_util/cc_md5.c:5-254 | the digest of the 26 lower-case letters is c3fcd3d76192e4007dfb496cca67e13b, as in section A.5 of RFC 1321 |

## Left out

- Sockets, epoll, accept and read loops, worker threads, logging, opening files, time formatting and atomics: input, output and foreign calls.
- Lifetime of connections and of timers freed in their own callbacks, and the `is_done` field of a timer.
- Allocation failures: `cc_malloc` and `cc_alloc` always succeed here.
- EventLoop.Loop.ProcessTimerEvents: ends for callbacks that cancel timers or arm them above the current time; TimerQueue.NeverEnds gives a callback with which it does not. The firing order is stated for live keys in one window narrower than 2^31 only; RbTree.TimerOrderExactly says what the tree order is outside it.
- HttpExecute.HttpParser.Execute: calls shorter than 2^32 - 80 KiB, because the source counts header bytes in 32 bits and a longer run of them would wrap the count; and when the bytewise run exceeds the header limit, only that the call ends in an error, since the source counts runs of name and value bytes late, so that position, code and callbacks may differ.
- HttpExecute.FieldLoop: the same limit on the length of a call.
- HttpExecute.ValueLoop: the same limit on the length of a call.
- HttpExecute.ExecuteBytes: the same two limits as HttpExecute.HttpParser.Execute.
- HttpExecute.Feed: when the bytewise run passes the header limit, only that the parser ends in an error; after a message that switches to another protocol the caller stops feeding; nothing is stated about bytes fed after that.
- How many calls deliver a slice: events are bytes and notices, so a data callback for no bytes, which the source makes for an empty header value, leaves no trace.
- The response states of the parser, lenient and non-strict modes, callbacks that return non-zero, and pausing.
- UrlParser.UrlFields.ParseUrl: inputs of at most 65535 bytes, because offsets and lengths are 16 bits wide; those of longer input are truncated, and nothing is stated about them.
- UrlParser.ScanUrl: the same limit.
- UrlParser.ParseHost: the same limit.
- HttpReply.HttpContext.SendChunkedBody: the body lies in one block of memory, which it may not leave; nothing is written to the socket meanwhile; the loop that writes queued nodes is not modelled.
- Number.Str2Ll: digits whose value does not fit a long long are excluded, since signed overflow is undefined; SignedRoundTrip shows that -2^63 is such a value.
- Number.PrintAndReadSigned: not -2^63, for the same reason.
- Number.Digits64: the mask and shift of the hexadecimal loop are modelled as remainder and quotient by 16.
- The directive scanner of `cc_vslprintf`, float formatting, the reply header text and the MD5 hex-string helpers.
- HashTable.Table.Delete: what the destroy callback does with the node it is given; the node keeps its stale link.
- Lru.LruCache.Insert: a capacity of at least one and an absent key, neither of which the source checks; the default compare function, which takes a prefix of a key for the key, is no equivalence and is excluded.
- The dynamic hash table with its incremental rehashing.
- The connector pool and the memory checker.
- Md5.Md5Context.Update: the optional unaligned little-endian read of block words is not modelled; both readings give the same words on such machines.
