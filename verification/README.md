# A verified model of the peer-to-peer file directory

The repository is a small directory of files: clients register which address
serves which file, ask the server for an address and copy the file from peer
to peer. Its web front end is the Crow framework, embedded as one header,
`includes/crow_all.h`. This project models the parts of both with the most
state, branching or arithmetic and proves what they promise, for every input
and every run. `dafny verify dfyconfig.toml` checks all of it.

| files | what they model |
|---|---|
| `RoutePattern`, `RouteTrie`, `RouteOptimize`, `RouteMarks`, `RouteFind`, `RouteTags`, `RouteUrl`, `Router` | the router: pattern texts, the trie and its registration, chain collapsing, the backtracking search with its parameter stack, parameter tags and typed dispatch, and urls made by filling in patterns |
| `JsonString`, `JsonText`, `JsonNumber`, `Json`, `JsonGrammar`, `JsonAccepted`, `JsonParser`, `JsonLoad`, `JsonRoundTrip`, `JsonList` | the JSON printer, the in-place parser over a character buffer, the texts it accepts as they are written, the round trip, and the growing array of parsed items |
| `HttpBody`, `HttpFeed`, `HttpDecode` | the body states of the HTTP parser and its feed call |
| `WebSocketFrame`, `WebSocketReader`, `WebSocketMessages` | frame headers, masking, the reading state machine, message assembly |
| `Sha1Spec`, `Sha1`, `Sha1Known`, `Base64` | the hashing object and the base64 codec, each against its standard |
| `Sessions`, `SessionRuns`, `SessionMiddleware`, `Expiration`, `Accept` | the session cache over a store, key expiration, connection hand-out |
| `Delimiter`, `Directory`, `DirectoryRuns`, `DirectoryFile`, `DirectorySaved`, `Form`, `FileListing`, `Exchange`, `ExchangeRuns`, `Transfer` | the directory itself: request texts, the table, its file, the web form, the listing, the conversation with a client, the file copy |
| `Options`, `Limits`, `Text`, `Pieces`, `Bits`, `Decimal`, `Hexadecimal`, `NumberScan`, `ByteOrder` | shared vocabulary |

Each imperative routine is a method proved against a function on values, and
the properties are lemmas about those functions: the trie search against
"try every pattern", the in-place parser against a grammar, the feed call
against a byte-by-byte run, the cached sessions against a plain table, the
SHA-1 object against FIPS 180-4. State machines have an invariant that every
step keeps and theorems over whole runs.

## Where the code does not do what one would expect

* The test that a handler's parameter types fit its pattern takes both digits
  from the same tag, so it compares only how many parameters there are
  (`RouteTags.CompatibleIffSameCount`); an accepted handler gets its arguments
  exactly when the types agree (`RouteTags.AcceptedHandlerGetsArguments`).
* The JSON parser takes "1." and "1e+" as numbers and refuses "0e5", and a NUL
  ends a text whatever follows it (`JsonNumber.NumberIff`, `JsonAccepted.LoadIff`).
* A new session id is drawn without checking that it is unused. A drawn id that
  is only in the store replaces that session, one that is in the cache loses
  the new session instead; `Sessions.AfterKeepsInvIff` and
  `SessionRuns.DrawnIdOutcome` say exactly when, and two runs show both.
* SHA-1 writes only the low 32 bits of the bit count, so its padding is the
  standard's exactly below 2^29 bytes (`Sha1.PadForms`).
* The saved table has one line per name with all its addresses, and the loader
  reads name, address, port triples; a table survives exactly when every name
  is free of whitespace and has one address (`DirectorySaved.RestoredIffOneEach`).
* A port above 65535 is stored truncated (`Directory.DecodeRequest`).
* A feed call that ends in an error right after a chunk's data loses the bytes
  of that chunk that came in the same call, so what is delivered then depends
  on how the input was cut (`HttpDecode.LostWhen`, `HttpDecode.CutDecidesLoss`).
* Bytes that follow a complete message in the same feed call signal completion
  again: every byte after a fixed-length body, every line feed after a chunked
  one. Later feed calls are ignored. So completion comes once exactly when the
  call that completes the body brings no such byte, which depends on how the
  input was cut (`HttpDecode.FixedSignals`, `HttpDecode.ChunkedSignals`).
* A parsed list that has grown to 2147465536 places and is full cannot grow: the
  size computed for the next array wraps (`JsonList.ReachableGrowsIff`).
* A client whose upload was stored reads its own port text as a number and is
  gone when it is none. That happens when a separator in the name or the address
  lets the server read another field as the port
  (`ExchangeRuns.UploadOutcome`, `ExchangeRuns.StoredThenCrashed`).

## Model

| member | source | states |
|---|---|---|
| `RoutePattern.EatAllConcat` | includes/crow_all.h:12190-12312 | what a pattern takes from a url is what its first part takes followed by what the rest takes from there, for any split of the pattern |
| `RoutePattern.EatLits` | includes/crow_all.h:12296-12307 | comparing a whole key at once is matching its characters one by one |
| `RouteTrie.AddFromRoutes` | includes/crow_all.h:12321-12404 | a registration inserts exactly one route, the pattern with its rule, among the routes the trie stands for, and disturbs no other |
| `RouteTrie.AddFromFails` | includes/crow_all.h:12400-12403 | a registration is refused if and only if the same tokens already have a rule |
| `RouteTrie.AddFromShape` | includes/crow_all.h:12321-12404 | registrations keep one token per edge and distinct siblings, so lookup of the next child is unambiguous |
| `RouteOptimize.OptimizeNode` | includes/crow_all.h:12077-12098 | the in-place collapse terminates on the node count and computes the collapsed tree |
| `RouteOptimize.OptimizedRoutes` | includes/crow_all.h:12077-12098 | collapsing leaves the routes of every node as they are, in the same order |
| `RouteMarks.AddedMarks` | includes/crow_all.h:12321-12404 | a registration marks one place, that one character past the blueprint's prefix when the pattern spells that character out and the tree did not reach it yet, with the blueprint's index, and moves no other mark |
| `RouteMarks.OptimizedMarks` | includes/crow_all.h:12077-12098 | collapsing leaves every blueprint index at the end of the same tokens |
| `RouteOptimize.OptimizedCompact` | includes/crow_all.h:12039-12098 | afterwards no simple node with a child is left anywhere |
| `RouteOptimize.OptimizedProper` | includes/crow_all.h:12077-12098 | collapsed trees are still trees the search accepts |
| `RouteFind.BestPrefixed` | includes/crow_all.h:12190-12312 | the best match of routes that share a prefix is the best match of their rests after the prefix |
| `RouteFind.BestConcat` | includes/crow_all.h:12172-12179 | keeping the better of two partial results over two lists of routes is the best over both |
| `RouteFind.RoutingParams.PopArg` | includes/crow_all.h:12190-12284 | a pop undoes the push it belongs to |
| `RouteFind.Find` | includes/crow_all.h:12157-12313 | the backtracking search leaves the parameter stack as it found it and reports the smallest rule among the node's routes that match, with the parameters read along the winning path |
| `Router.BestIsSmallest` | includes/crow_all.h:12157-12313 | the reference search returns the smallest matching rule, and nothing exactly when no route matches |
| `Router.Trie.constructor` | includes/crow_all.h:12028-12066 | a new trie holds no route |
| `Router.Trie.Add` | includes/crow_all.h:12321-12404 | accepted exactly when the tokens are new; then the route and its blueprint mark are gained, otherwise nothing changes |
| `Router.Trie.Optimize` | includes/crow_all.h:12067-12073 | same routes, same order, nothing left to merge below the head |
| `Router.Trie.Validate` | includes/crow_all.h:12149-12154 | refused exactly when the head is not simple; the routes never change |
| `Router.Trie.FindRule` | includes/crow_all.h:12315-12318 | on any trie built by registrations, collapsed or not, and any url: the smallest matching rule with its arguments, 0 exactly when none matches |
| `Router.BuildHoldsAsked` | includes/crow_all.h:12321-12404 | after any sequence of successful registrations the trie holds exactly the routes asked for, as a multiset |
| `Router.SearchIsTryEveryPattern` | includes/crow_all.h:12067-12404 | for every sequence of successful registrations and every url, the collapsed and the uncollapsed trie give the same answer, which is the smallest rule among all patterns that match, or none |
| `RouteTags.TagFits` | includes/crow_all.h:1411-1422 | the tag of a pattern with at most 24 parameters fits 64 bits |
| `RouteTags.ParameterTagOf` | includes/crow_all.h:1411-1422 | the tag computed over any pattern text is the base-6 number of its parameter types, cut to 64 bits |
| `RouteTags.ParameterTagExact` | includes/crow_all.h:1411-1422 | it is exact if and only if that number fits 64 bits, as it does for up to 24 parameters |
| `RouteTags.ArgumentsOfTag` | includes/crow_all.h:1549-1560 | decoding the tag gives the parameter types in order |
| `RouteTags.CallRestores` | includes/crow_all.h:11483-11552 | arguments spread over the four per-type lists and merged back by the type list come out in their original order |
| `RouteTags.CapturedKinds` | includes/crow_all.h:12190-12284 | a matching pattern captures one argument of each type it declares, in order |
| `RouteTags.HandlerGetsArgumentsInOrder` | includes/crow_all.h:11483-11552 | from pattern text to handler call: the handler receives what the url spells, in url order |
| `RouteTags.HandlerTagIff` | includes/crow_all.h:1360-1370 | a pattern's tag is the tag computed from its handler's parameter types if and only if it has no `<path>` |
| `RouteTags.CompatibleIffSameCount` | includes/crow_all.h:1372-1385 | the compatibility test accepts two tags if and only if they have the same number of digits |
| `RouteTags.CompatibleIgnoresTypes` | includes/crow_all.h:1372-1385 | so patterns are compatible exactly when they have equally many parameters; an `<int>` pattern passes for a `<string>` handler |
| `RouteTags.CallIffKinds` | includes/crow_all.h:11483-11552 | a handler gets the captured arguments if and only if it asks for their types in their order |
| `RouteTags.AcceptedHandlerGetsArguments` | includes/crow_all.h:11937-11943 | a handler on a pattern, accepted or not, gets what the url spells if and only if the types agree, which the test does not check |
| `RouteUrl.TokensOfText` | includes/crow_all.h:12321-12390 | a pattern text of characters and the seven tags in any spelling says exactly those characters and parameters |
| `RouteUrl.IntEaten` | includes/crow_all.h:12194-12213 | `<int>` reads an optional sign and a run of digits as the number they spell, minus included, stops after them, and refuses a number outside 64 bits |
| `RouteUrl.UintEaten` | includes/crow_all.h:12214-12233 | the same for `<uint>`, which takes no minus |
| `RouteUrl.NoNumberEaten` | includes/crow_all.h:12194-12233 | where no digit follows the optional sign neither reads anything |
| `RouteUrl.NoTextEaten` | includes/crow_all.h:12254-12296 | `<string>` reads nothing exactly where nothing stands before the next slash, `<path>` exactly at the end |
| `RouteUrl.FilledCaptured` | includes/crow_all.h:12157-12313 | the url made by filling in a pattern with arguments its parameters can read matches the pattern and gives exactly these arguments back |
| `RouteUrl.FilledUrlCallsHandler` | includes/crow_all.h:11483-11552 | from pattern text and arguments to the handler: it is called with exactly what was filled in |
| `JsonString.Escape` | includes/crow_all.h:5247-5279 | the escaping loop appends the escaped text |
| `JsonString.UnescapeEscaped` | includes/crow_all.h:5247-5279 | for every string, its escaped text is well formed and unescapes to the string |
| `JsonString.BodyOfEscaped` | includes/crow_all.h:6113-6166 | the scan of a printed string stops at its own closing quote and at no earlier one |
| `JsonString.NothingToUnescape` | includes/crow_all.h:6121-6132 | a body without a backslash needs no rewriting, which is when the parser leaves the mark clear |
| `JsonText.CodeBytesAreUtf8` | includes/crow_all.h:5717-5733 | the bytes written for a `\uXXXX` code are its shortest UTF-8 form |
| `JsonText.SpelledBody` | includes/crow_all.h:5687-5749 | a body made of plain bytes, the eight short escapes and codes in letters of either case is accepted and stands for what its pieces mean |
| `JsonText.BodySpelled` | includes/crow_all.h:6113-6166 | every accepted body is made of such pieces |
| `JsonText.EscapeIsPiece` | includes/crow_all.h:5247-5279 | the printer writes the short escape of the seven bytes that have one, a code in small letters for the other control bytes, and every other byte as it is |
| `JsonNumber.NumberAccepted` | includes/crow_all.h:6208-6332 | every number as spelled in its parts is accepted to its end |
| `JsonNumber.NumberSpelled` | includes/crow_all.h:6208-6332 | every accepted number is spelled in such parts |
| `JsonNumber.NumberIff` | includes/crow_all.h:6208-6332 | said without the automaton, the texts that are numbers: an optional minus, zero or digits without a leading zero, an optional point with digits or none, an optional exponent, and nothing after that could go on |
| `JsonNumber.NumberType` | includes/crow_all.h:5950-5968 | a number is floating-point exactly when it has a point or an exponent, otherwise signed exactly when it has a minus |
| `JsonString.UnescapeBody` | includes/crow_all.h:5687-5749 | rewriting in place: the write position never passes the read position, the text becomes the unescaped body, nothing outside it changes |
| `JsonString.Unescape` | includes/crow_all.h:5687-5749 | the marked string is unescaped, terminated and unmarked, so a second call changes nothing |
| `Json.DumpInternal` | includes/crow_all.h:7040-7165 | appends the printed form of any value to what was already there |
| `JsonGrammar.ParsePrinted` | includes/crow_all.h:6335-6448 | a value as written, with any blanks between its tokens and any spelling of its numbers and strings, parses to what it says and ends where it ends, exactly when it fits the remaining depth |
| `JsonGrammar.LoadPrinted` | includes/crow_all.h:6452-6477 | a written value with any blanks around it is loaded as what it says up to 5000 levels of nesting, each costing two of the 10000 allowed, and refused beyond |
| `JsonAccepted.ValueParsed` | includes/crow_all.h:6335-6448 | whatever parses was written so |
| `JsonAccepted.LoadIff` | includes/crow_all.h:6452-6477 | a text loads if and only if it is a written value, with blanks around it, nested at most 5000 deep, up to its end or a NUL; and then it loads as what that says |
| `JsonRoundTrip.BareIs` | includes/crow_all.h:7040-7165 | the text of a printed value is a written one without blanks, and says what the value shows |
| `JsonRoundTrip.LoadDumped` | includes/crow_all.h:6466-6477 | loading a printed value shows that value up to 5000 levels of nesting and is refused beyond |
| `JsonRoundTrip.RoundTrip` | includes/crow_all.h:6609-6645 | for nulls, booleans, 64-bit integers, strings, lists and objects with distinct keys: print, load and convert back is the identity up to the signed/unsigned mark |
| `JsonRoundTrip.FirstMembersKept` | includes/crow_all.h:6639-6643 | of several members with one key, a value made from a parsed object keeps exactly the first |
| `JsonParser.ViewLocal` | includes/crow_all.h:6113-6130 | a parsed value depends only on its own stretch of the buffer, so later rewriting cannot change it |
| `JsonLoad.Parser.Ws` | includes/crow_all.h:6102-6106 | skips to the next character that is not a blank |
| `JsonLoad.Parser.DecodeString` | includes/crow_all.h:6108-6166 | accepts exactly the strings of the grammar and leaves the opening byte saying whether unescaping is due |
| `JsonLoad.Parser.DecodeNumber` | includes/crow_all.h:6208-6332 | the number state machine accepts exactly the grammar's numbers |
| `JsonLoad.Parser.DecodeList` | includes/crow_all.h:6168-6206 | refuses exactly the lists the grammar refuses, the depth bound included |
| `JsonLoad.Parser.DecodeObject` | includes/crow_all.h:6389-6448 | the same for objects |
| `JsonLoad.Parser.DecodeValue` | includes/crow_all.h:6335-6387 | the mutually recursive in-place parser agrees with the grammar on acceptance, extent and value, and touches nothing before its start |
| `JsonLoad.Parser.Parse` | includes/crow_all.h:6452-6460 | one value surrounded by blanks up to the end of the text |
| `JsonLoad.LoadText` | includes/crow_all.h:6466-6477 | loading a text is parsing it by the grammar |
| `JsonList.GrowsIff` | includes/crow_all.h:5929-5943 | in the program's 32-bit arithmetic a full array grows if and only if its size is below 2^31 - 60000, and then by at most 60000, which the 16-bit count of free places holds |
| `JsonList.List.constructor` | includes/crow_all.h:5494-5497 | an empty list without places |
| `JsonList.List.Grow` | includes/crow_all.h:5931-5944 | a larger array with the same contents and at least one free place |
| `JsonList.ReachableGrowsIff` | includes/crow_all.h:5929-5943 | over the sizes a list can come to by growing from nothing, a full one grows if and only if it is below 2147465536, and to the next of these sizes |
| `JsonList.List.EmplaceBack` | includes/crow_all.h:5929-5947 | up to exactly that size, appends the element and writes inside the array, and size and free places always make up its length |
| `HttpBody.RunConcat` | includes/crow_all.h:4561-4733 | the effect of bytes does not depend on where they are cut |
| `HttpBody.RunCounted` | includes/crow_all.h:4561-4602 | counted body bytes are delivered as they are until the count reaches zero |
| `HttpBody.RunKeepsCounter` | includes/crow_all.h:4624-4659 | over every input the length counter never wraps and never equals the mark for an absent length |
| `HttpBody.RefusedBytes` | includes/crow_all.h:4561-4743 | state by state, exactly which byte is refused, and the header states after 81920 bytes |
| `HttpBody.TokenIff` | includes/crow_all.h:3491-3524 | the bytes that can start a trailer are the visible ones that are no separator of RFC 2616, section 2.2 |
| `HttpFeed.HttpParser.Execute` | includes/crow_all.h:4561-4756 | one feed call, with marks and the re-executed byte, has the byte-by-byte effect: same state, same completions, same error at the same byte, and the same body bytes except, on an error, exactly those behind the pending mark; none are lost if and only if the error is at the first byte or not right after a chunk's data |
| `HttpFeed.HttpParser.Single` | includes/crow_all.h:4604-4743 | a byte in a state that does not count, with the flush at the end of a chunk's data or the error it causes |
| `HttpFeed.HttpParser.Feed` | includes/crow_all.h:4960-4983 | the call the connection makes: ignored once the message is complete, otherwise one call of the parser, refused exactly on an error |
| `HttpFeed.DroppedWhen` | includes/crow_all.h:4712-4718 | for any input, where the error must be for a call to lose nothing |
| `HttpFeed.HttpParser.Bulk` | includes/crow_all.h:4561-4710 | taking many body bytes at once is taking them one by one |
| `HttpFeed.HttpParser.Flush` | includes/crow_all.h:3090-3116 | the callback delivers exactly the marked bytes |
| `HttpDecode.RunDigits` | includes/crow_all.h:4624-4659 | a chunk size is read exactly up to 0xffffffffffffffef and refused above |
| `HttpDecode.HexFoldDigits` | includes/crow_all.h:3526-3535 | the size line of a number's hexadecimal numeral, in letters of either case, denotes that number |
| `HttpDecode.HexFoldZeros` | includes/crow_all.h:4608-4659 | leading zeros change nothing |
| `HttpDecode.RunChunked` | includes/crow_all.h:4608-4733 | every well-formed trailer-free chunked body delivers its content and completes once, at its last byte and no earlier |
| `HttpDecode.RunFixed` | includes/crow_all.h:4561-4606 | the same for fixed-length bodies |
| `HttpDecode.RunFixedMore` | includes/crow_all.h:4604-4606 | in one call of the parser every byte after a fixed-length body signals completion again |
| `HttpDecode.RunChunkedMore` | includes/crow_all.h:4418-4427 | in one call of the parser every line feed after a chunked body signals completion again, up to the header limit |
| `HttpDecode.FeedAll` | includes/crow_all.h:4960-4983 | for every input, erroneous or not, and every cutting into feed calls: parser and completions are those of the input up to the end of the first call that completes the message, later calls change nothing, and the body is that of the same input less what the call that meets an error loses |
| `HttpDecode.HeardReaches` | includes/crow_all.h:4960-4983 | the calls that get through are those up to the one that brings the byte completing the message |
| `HttpDecode.FixedSignals` | includes/crow_all.h:4960-4983 | a fixed-length body followed by anything, cut in any way: completion is signalled once more for every byte that comes after the body in the same call, so once if and only if that call ends with the body |
| `HttpDecode.ChunkedSignals` | includes/crow_all.h:4960-4983 | the same for a chunked body: once if and only if no line feed follows it in the same call |
| `HttpDecode.LostWhen` | includes/crow_all.h:4712-4718 | body bytes are lost if and only if the parser was waiting for the end of a chunk's data and the wrong byte is not the first of its piece |
| `HttpDecode.CutDecidesLoss` | includes/crow_all.h:4689-4718 | two bytes whose first is lost when they are fed together and kept when they are fed apart |
| `HttpDecode.DecodeChunked` | includes/crow_all.h:4608-4756 | every chunked body under every cutting: the pieces add up to the content and completion is signalled exactly once |
| `HttpDecode.DecodeSized` | includes/crow_all.h:4608-4756 | the same from the sender's side: data in chunks whose sizes are written in hexadecimal, in either case and with any leading zeros |
| `HttpDecode.DecodeFixed` | includes/crow_all.h:4561-4606 | the same for fixed-length bodies |
| `HttpDecode.LengthExact` | includes/crow_all.h:4240-4268 | a Content-Length is accepted exactly up to 18446744073709551609, then read exactly, and so never equals the mark for an absent length |
| `HttpDecode.LengthSpelled` | includes/crow_all.h:4240-4268 | and it is the number its digits spell, leading zeros allowed |
| `ByteOrder.Swap16OnWire` | includes/crow_all.h:9822-9827 | storing the swapped 16-bit length puts it on the wire highest byte first |
| `ByteOrder.Swap64OnWire` | includes/crow_all.h:9828-9833 | the 64-bit swap made of two 32-bit ones does the same |
| `WebSocketFrame.MaskedTwice` | includes/crow_all.h:10125-10131 | masking is its own inverse |
| `WebSocketFrame.XorBit` | includes/crow_all.h:10125-10131 | each bit of a byte combined with a mask byte tells whether their bits differ |
| `WebSocketReader.Connection.constructor` | includes/crow_all.h:9864-9900 | a connection starts waiting for a frame header |
| `WebSocketReader.Connection.FinishFragment` | includes/crow_all.h:10123-10206 | the fragment is unmasked byte by byte, handed on by opcode and cleared |
| `WebSocketReader.Connection.Complete` | includes/crow_all.h:9864-10105 | every completed read moves the connection as the state machine says |
| `WebSocketMessages.ReadFrame` | includes/crow_all.h:9864-10105 | one frame, masked or not, in any length form, with any reserved bits and arriving in any parts, is absorbed with its own opcode and payload |
| `WebSocketMessages.ReadMasked` | includes/crow_all.h:9864-10131 | from the wire: what a masked frame delivers has, in every bit, the difference of the wire byte and the mask byte of its position |
| `WebSocketMessages.ReadLength` | includes/crow_all.h:9864-9990 | the header up to the length is read in all three forms, and too long a payload closes the connection there |
| `WebSocketMessages.ReadFrames` | includes/crow_all.h:9864-10206 | any sequence of frames is absorbed in order |
| `WebSocketMessages.MessagesDelivered` | includes/crow_all.h:9864-10206 | any messages, fragmented and masked in any way, with pings and pongs between fragments, are delivered as sent and in order, and every ping is answered with its payload |
| `WebSocketMessages.BuiltHeader` | includes/crow_all.h:9813-9834 | the built header is the header of an unmasked final frame in the length form its size calls for, and its length field read in network order is the size |
| `WebSocketMessages.BuiltHeaderReadBack` | includes/crow_all.h:9813-9834 | reading a built header gives its opcode and length back in the 7, 16 and 64-bit forms |
| `Sha1.RoundForms` | includes/crow_all.h:918-941 | the program's round, with its or-forms and xor-rotations, is the round of FIPS 180-4 |
| `Sha1.Schedule` | includes/crow_all.h:901-910 | the table holds the 80 words of the message schedule |
| `Sha1.CompressBlock` | includes/crow_all.h:900-948 | one block is compressed as section 6.1.2 of FIPS 180-4 says |
| `Sha1.PadForms` | includes/crow_all.h:841-863 | the padding fed is the standard's if and only if the message is under 2^29 bytes |
| `Sha1.Hasher.constructor` | includes/crow_all.h:798-798 | a new object has been fed nothing |
| `Sha1.Hasher.Reset` | includes/crow_all.h:808-817 | back to the initial value and nothing fed |
| `Sha1.Hasher.ProcessByte` | includes/crow_all.h:818-826 | after any bytes, the digest covers the whole blocks fed and the buffer holds the rest |
| `Sha1.Hasher.ProcessBytes` | includes/crow_all.h:827-840 | the same for a piece of any length |
| `Sha1.Hasher.GetDigest` | includes/crow_all.h:841-867 | the digest of everything fed, equal to the standard's under 2^29 bytes, with the block buffer left empty |
| `Sha1.DigestOfPieces` | includes/crow_all.h:836-867 | in whatever pieces a message is fed, the digest is the standard's digest of the whole |
| `Sha1Known.DigestOfAbc` | includes/crow_all.h:841-948 | the digest of "abc" is the one in FIPS 180-4 |
| `Sha1Known.RootConstants` | includes/crow_all.h:917-933 | the round constants are the integer parts of 2^30 times the square roots of 2, 3, 5 and 10 |
| `Base64.ValueOfLetter` | includes/crow_all.h:1818-1825 | the decoder's character table inverts both alphabets, and no letter is the padding sign |
| `Base64.ValueOfOther` | includes/crow_all.h:1818-1825 | a character of neither alphabet reads as zero |
| `Base64.SizeFromEnd` | includes/crow_all.h:1827-1841 | for a text of any length and end, how many bytes the decoder makes room for |
| `Base64.DecodedEncoded` | includes/crow_all.h:1761-1885 | decoding gives the bytes back from any prefix of the encoded text that still has a letter for each of their bits |
| `Base64.SizeOfEncoded` | includes/crow_all.h:1827-1841 | the decoder sizes its buffer right for padded and for stripped text |
| `Base64.RoundTrip` | includes/crow_all.h:1761-1885 | for every non-empty byte string, both alphabets, padded or stripped: decoding inverts encoding, and the text has four letters per three bytes begun |
| `Base64.Encode` | includes/crow_all.h:1761-1795 | the loop over the bytes writes RFC 4648's encoding and fills its buffer exactly |
| `Base64.Decode` | includes/crow_all.h:1812-1885 | the loop over the letters yields the bytes of their 24-bit groups, for any text of two letters or more, and stays inside text and buffer |
| `Sessions.OneNodePerId` | includes/crow_all.h:8222-8258 | two live nodes never stand for the same session |
| `Sessions.ReferrersCountHolders` | includes/crow_all.h:8222-8297 | a cached node's reference count is exactly the number of requests in flight that hold it |
| `Sessions.StepKeepsInv` | includes/crow_all.h:8222-8297 | every step of every request, with any drawn id that is not cached, keeps the cache, the nodes, the store and the load/save log in agreement; in particular nothing is loaded twice without a save between |
| `Sessions.AfterKeepsInvIff` | includes/crow_all.h:8261-8297 | whatever id is drawn, the agreement survives the end of a request if and only if the request needs no id or the id is not cached |
| `SessionRuns.StepRefines` | includes/crow_all.h:8222-8297 | every step of the cached middleware is the same step on a plain table of sessions |
| `SessionRuns.RunRefines` | includes/crow_all.h:8222-8297 | over every interleaving the middleware ends where the plain table ends; every session nobody holds is in the store with all its writes |
| `SessionRuns.NobodyLeft` | includes/crow_all.h:8261-8297 | once the last request leaves, the cache is empty and the store is the table |
| `SessionRuns.InitialInv` | includes/crow_all.h:8335-8358 | the invariant holds at the start over any store of named sessions |
| `SessionRuns.DraftRefinesIff` | includes/crow_all.h:8267-8277 | for a request that leaves a new session, the step is the plain table's if and only if the drawn id is not cached, equal entries apart |
| `SessionRuns.DrawnIdOutcome` | includes/crow_all.h:8267-8277 | for every drawn id: the new session is there afterwards if and only if the id was not cached, every existing session is unharmed if and only if the id was not stored or was cached, and both together if and only if the id was not stored, equal entries apart |
| `SessionRuns.StoredIdReplaced` | includes/crow_all.h:8267-8277 | a run from the start whose drawn id replaces a stored session |
| `SessionRuns.CachedIdLosesWrites` | includes/crow_all.h:8267-8277 | a run from the start whose drawn id is in use: the new writes are gone when the session in use is saved |
| `SessionMiddleware.Middleware.constructor` | includes/crow_all.h:8204-8220 | starts with no node and no request in flight |
| `SessionMiddleware.Middleware.Load` | includes/crow_all.h:8339-8343 | loading moves the stored entries out of the store |
| `SessionMiddleware.Middleware.Save` | includes/crow_all.h:8345-8348 | saving puts the entries in the store |
| `SessionMiddleware.Middleware.BeforeHandle` | includes/crow_all.h:8222-8258 | the request joins the cached node, or loads one, or starts without |
| `SessionMiddleware.Middleware.SetValue` | includes/crow_all.h:8124-8131 | a write goes to the node the request holds, made on demand |
| `SessionMiddleware.Middleware.RemoveValue` | includes/crow_all.h:8153-8159 | a removal goes to the held node, if any |
| `SessionMiddleware.Middleware.AfterHandle` | includes/crow_all.h:8261-8297 | for any drawn id, the last holder saves and drops the node, under the new id when the session is new; the invariant is kept exactly when a drawn id is not cached |
| `SessionMiddleware.Middleware.SaveNode` | includes/crow_all.h:8267-8292 | the node goes, its entries are stored under its id or the drawn one |
| `SessionMiddleware.Middleware.GetValue` | includes/crow_all.h:8104-8120 | a read sees the plain table's value, whoever wrote it last, or the fallback |
| `Expiration.InsertOrdered` | includes/crow_all.h:8016-8022 | inserting keeps the queue ordered and adds exactly that element |
| `Expiration.EraseOrdered` | includes/crow_all.h:8024-8032 | erasing keeps the queue ordered and removes exactly that element |
| `Expiration.KeyLessIff` | includes/crow_all.h:8010-8012 | keys that expire together are in dictionary order |
| `Expiration.Tracker.constructor` | includes/crow_all.h:8010-8059 | a new tracker is empty and valid |
| `Expiration.Tracker.Add` | includes/crow_all.h:8016-8022 | the key has the new time and every other key its old one; the queue stays the exact inverse of the map |
| `Expiration.Tracker.Remove` | includes/crow_all.h:8024-8032 | only this key goes; the queue stays the exact inverse of the map |
| `Expiration.Tracker.PeekFirst` | includes/crow_all.h:8035-8039 | the earliest time tracked, or the largest time there is |
| `Expiration.Tracker.PopFirst` | includes/crow_all.h:8041-8048 | takes out the key that is sooner than every key left |
| `Expiration.FileStore.HandleExpired` | includes/crow_all.h:8394-8403 | removes exactly the soonest of the expired keys, as many as there are up to three, with their files, and never pops an empty tracker |
| `Accept.Server.constructor` | includes/crow_all.h:10429-10437 | all queues start empty |
| `Accept.Server.PickWorker` | includes/crow_all.h:10527-10541 | picks the first worker of minimal queue length, although looking stops early |
| `Accept.Server.DoAccept` | includes/crow_all.h:10543-10555 | starts an accept for a worker of minimal length unless shutting down |
| `Accept.Server.Accepted` | includes/crow_all.h:10556-10574 | success or error, the lengths stay balanced and count the accepted connections |
| `Accept.Serve` | includes/crow_all.h:10527-10574 | over any run of accepts and errors the lengths are within one of each other and sum to the successes plus the one pending |
| `Delimiter.FirstSeparator` | includes/almacen.cpp:70-78 | the separator does not overlap itself: the first one after a free field is that field's own |
| `Delimiter.TokensJoined` | includes/almacen.cpp:70-78 | free fields, joined and followed by a free tail, are split back into themselves |
| `Delimiter.TokensJoinedIff` | includes/almacen.cpp:70-78 | joining and splitting is the identity if and only if no field holds a separator |
| `Delimiter.Lossless` | includes/almacen.cpp:70-78 | the fields and the tail put together again are the text |
| `Delimiter.Split` | includes/almacen.cpp:70-78 | the erasing loop yields the fields |
| `NumberScan.StoiDigits` | includes/almacen.cpp:82-82 | a printed number is read back exactly, or refused when an `int` cannot hold it |
| `NumberScan.StoiSpelled` | includes/almacen.cpp:82-82 | whitespace, an optional sign, digits and anything after them are read as the number the digits spell, or refused when an `int` cannot hold it |
| `Directory.NtoaPacked` | includes/almacen.cpp:50-54 | printing the stored address word gives back the dotted form it was read from |
| `Directory.DottedParts` | includes/almacen.cpp:50-54 | the dotted form, cut at its three points, is the four numbers in decimal |
| `Directory.Swap16Twice` | includes/almacen.cpp:50-54 | the two byte-order swaps of the port cancel |
| `Directory.RequestFields` | servidor.cpp:53-54 | a request built from any three texts has the three fields the parser needs |
| `Directory.DecodeRequest` | includes/almacen.cpp:70-85 | a request with a free name and a dotted address registers them; the port is kept up to 65535, truncated above, refused beyond an `int` |
| `Directory.PortDecides` | includes/almacen.cpp:70-85 | with a separator-free name and address, whatever the port text: the entry is stored if and only if that text reads as a number |
| `Directory.ReadReply` | cliente.cpp:317-320 | the downloader cuts a reply into address and port at the right places |
| `Directory.LookupRead` | cliente.cpp:317-320 | for every table and name, the downloader reads the first address listed, and takes the reply for "none" exactly when the name is absent |
| `DirectoryRuns.AfterLists` | includes/almacen.cpp:9-26 | every list is what was there, followed by what was registered, in order |
| `DirectoryRuns.FirstRegisteredWins` | includes/almacen.cpp:35-46 | after any registrations, asking for a name and reading the reply gives exactly the address and port first registered under it |
| `DirectoryRuns.NeverRegistered` | includes/almacen.cpp:42-44 | a name never registered is answered as absent |
| `DirectoryRuns.Store.constructor` | includes/almacen.h:14-19 | an empty table |
| `DirectoryRuns.Store.Register` | includes/almacen.cpp:9-26 | accepted exactly when the port is a number; then the entry is appended under its name, otherwise nothing changes |
| `DirectoryRuns.Store.Lookup` | includes/almacen.cpp:35-46 | the reply for a name, and whether it is listed |
| `DirectoryRuns.RegisterAll` | includes/almacen.cpp:9-26 | well-formed requests are all accepted and the table is the run's |
| `DirectoryFile.Save` | includes/almacen.cpp:98-115 | the nested loops write one line per name in the table's order |
| `DirectoryFile.Restore` | includes/almacen.cpp:118-136 | the loop reads triples until the first failure, and the table is what they register |
| `DirectorySaved.EntryOfLine` | includes/almacen.cpp:130-132 | a line with one address is read back as that entry |
| `DirectorySaved.UnsignedSpelled` | includes/almacen.cpp:128-130 | a number in the file, after any whitespace: a minus wraps it around, and one that does not fit ends the loading |
| `DirectorySaved.EntriesWeight` | includes/almacen.cpp:130-132 | no text yields entries that together weigh more than the text, signs and partial numbers included |
| `DirectorySaved.RestoredIffOneEach` | includes/almacen.cpp:98-136 | for every table: saving then loading restores it if and only if every name is non-empty, free of whitespace and has exactly one address |
| `DirectorySaved.SecondAddressLost` | includes/almacen.cpp:98-136 | a table that does not survive |
| `Form.Format` | servidor.cpp:36-55 | the loop over the form's pieces builds the request from the last value of each key |
| `Form.FormattedBody` | servidor.cpp:36-55 | whatever parts a form sends, in any order, with any others, with text that is no field or an ampersand at the end, the request holds the last value given to each of the three keys |
| `FileListing.ListNames` | includes/almacen.cpp:88-95 | the loop writes each name and a space |
| `FileListing.ListingRead` | servidor.cpp:171-182 | for any names the listing says "EMPTY" exactly for an empty table, even when a file has that name, and of names that are words it gives these in order |
| `Exchange.StepKeepsInv` | servidor.cpp:153-260 | every step of client and server keeps the conversation in phase and the table in step with the acknowledgements |
| `ExchangeRuns.OneSideMoves` | cliente.cpp:46-169 | while neither side is gone, one side may send while the other waits, or one message is under way to a side that waits for it: exactly one of these |
| `ExchangeRuns.HowItEnds` | cliente.cpp:104-121 | no acknowledgement is ever wrong; the client is gone by a crash if and only if an upload it has had confirmed has a port that is no number, and the server gives up only on an upload it cannot store |
| `ExchangeRuns.StopsIff` | servidor.cpp:208-212 | an upload stops the server if and only if it cannot be stored |
| `ExchangeRuns.CrashesIff` | cliente.cpp:111-121 | the acknowledgement of an upload ends the client if and only if the port it typed is no number, and otherwise takes it back to its menu |
| `ExchangeRuns.NoDeadlock` | cliente.cpp:46-169 | while neither side is gone some step is possible |
| `ExchangeRuns.NothingAfterTheEnd` | cliente.cpp:46-169 | once one is gone none is |
| `ExchangeRuns.LoopTop` | servidor.cpp:153-260 | at the server's loop top the table is the loaded one plus every acknowledged upload in order, and at the client's menu all uploads are confirmed |
| `ExchangeRuns.AddressReceived` | cliente.cpp:122-164 | the address a client receives is the first one of that name in the loaded table followed by all acknowledged uploads |
| `ExchangeRuns.ListingReceived` | servidor.cpp:171-187 | the listing a client receives is "EMPTY" if and only if the loaded table and the acknowledged uploads list nothing, and otherwise, when all names are words, its words are exactly those names, each once |
| `ExchangeRuns.ListingOutcome` | cliente.cpp:58-77 | option 0 brings the listing of the table and leaves everything as it was |
| `ExchangeRuns.DownloadOutcome` | cliente.cpp:122-164 | option 2 brings the table's reply for the name typed and leaves everything as it was |
| `ExchangeRuns.LeavingOutcome` | cliente.cpp:165-168 | any other option ends the client without a message |
| `ExchangeRuns.RunKeepsInv` | servidor.cpp:153-260 | the invariant holds in every state of every run |
| `ExchangeRuns.EveryState` | servidor.cpp:153-260 | in every state of every run, from any loaded table and with any uploads: one side moves at a time while neither is gone, the table at the server's loop top is the loaded one plus the acknowledged uploads, these are the uploads typed, in order and complete at the client's menu, the replies under way are those of that table, and exactly when each side is gone |
| `ExchangeRuns.UploadOutcome` | cliente.cpp:78-121 | an upload from the menu, whatever is typed: refused, it stops the server; stored, it is acknowledged and the client is back at its menu if its port is a number and gone if not |
| `ExchangeRuns.FreeNeverCrashes` | cliente.cpp:92-121 | with separator-free names and addresses the client never crashes, whatever the ports |
| `ExchangeRuns.StoredThenCrashed` | cliente.cpp:120-120 | a run from the start in which an upload is stored and acknowledged and the client is gone |
| `ExchangeRuns.UploadsTyped` | cliente.cpp:92-105 | the uploads sent are those typed, in order |
| `ExchangeRuns.WellTypedNeverStops` | servidor.cpp:208-212 | with well-formed uploads neither side is ever lost, in any run and whatever was loaded |
| `Transfer.FileService.Forward` | cliente.cpp:216-246 | only the bytes just read are written on, whatever the buffer held before |
| `Transfer.Download.Do` | cliente.cpp:216-246 | any read of either end keeps written, travelling and unread bytes together equal to the source |
| `Transfer.Download.NeverStuck` | cliente.cpp:216-246 | until the copy is complete some step is possible |
| `Transfer.Copy` | cliente.cpp:216-246 | for every file and every choice of read sizes and turns the copy ends and equals the source |

## Left out

- Blueprint indices returned by the search: the vector is moved from before it is returned and popped without a push, so they have no clean meaning; of the indices themselves it is proved where registration puts them and that collapsing keeps them.
- Trie nodes are values: children are held by value in the source, so registration and collapsing rebuild a tree instead of walking a pointer through it.
- Pattern texts with an unknown tag and urls or patterns with a NUL byte: registration loops on the first, and NUL is the trie's key for a parameter.
- `strtod` is a parameter that says how many characters it converts; the value of a double is its text.
- Clearing the HTTP parser between messages: callbacks do not do it, and the connection does it after its reply; the model follows one message.
- Request line, url and header states of the HTTP parser, trailers, and callbacks that return an error: the model starts after the headers and stops at a trailer.
- Malformed chunk sizes: bytes from 128 on count as digit 0 there, as in the source; the content of a body is stated for well-formed ones, the effect of feed calls for all.
- JSON floating-point printing and function values: the first loses precision, the others have no textual form. The in-place parser gathers its items in a sequence; the array behind it is `JsonList`.
- WebSocket closing and object lifetime, and a two-byte header that arrives in two reads.
- Big-endian hosts: memory is little-endian throughout.
- `getDigestBytes`, and the handshake that hashes and encodes a key: straight compositions.
- Base64 decoding of fewer than two letters: the program reads in front of the text.
- Session cookies, locking and `apply`: each middleware call is one atomic step; new ids and node addresses are parameters.
- Accept.Server.PickWorker: queue lengths are unbounded numbers, so the wrap-around of a 32-bit counter is not modelled.
- The constructor and destructor of `FileStore`, and its session files' contents: only which files exist.
- Several clients on the one reply socket and web threads sharing the table: nothing in the source orders them.
- `inet_addr` on text that is not a canonical dotted quad: it is a parameter that must read canonical forms and may return anything else.
- Requests with fewer than three fields: outside the program's defined behaviour, so registration requires three; every request the repository builds has them.
- Files that cannot be opened, file descriptors, partial writes and socket errors.
- Mustache templates, CORS, cookies, logging, the HTML page, menus and signals: presentation.
