# Smart Drive Manager — a Dafny model of the storage core

This project models, in Dafny, the storage engine and the in-memory machinery of the
Smart Drive Manager vehicle-fleet server, and proves what each part promises.

* **Record heap** (`DatabaseManager`): one file with a 4096-byte header followed by seven
  fixed-capacity tables of packed records (drivers, vehicles, trips, maintenance, expenses,
  documents, incidents). The table offsets are computed from the capacities and record sizes.
  Every create, read, update, delete and query is a first-match linear scan over the slots.
  Each scan is a method with loop invariants, proved equal to a function on the table's contents.
* **Record layouts** (`SdmTypes`): field widths, record sizes (a 4096-byte header, 1024-byte
  records and a 2048-byte incident), enum codes, and the defaults the constructors give, which
  also serve as the free-slot sentinels.
* **Composite-key B-tree** (`BTree`) and **string-key B+-tree** (`BPlusTree`) index files. Each file
  is a map from page offset to node. The model keeps the source's preemptive top-down splitting,
  its leaf chains, its metadata pages with their magic tags, and the B-tree's 256-entry
  write-through FIFO node cache. It also reproduces the source's quirks:
  * a leaf split promotes the median key without its value, so that key is no longer found
    (`BTree.MedianLost`, `BPlusTree.MedianLost`);
  * on an equal internal key, the B-tree search goes right and the B+-tree search goes left;
  * a leaf split never repairs the old right neighbour's `prev`;
  * insert has no duplicate check.
* **Index facade** (`IndexManager`): one primary B-tree and three secondary B+-trees, with
  create and open that stop at the first failing tree and keep the trees already built,
  the fixed key shapes, and rebuilds that are not idempotent.
* **Containers**:
  * the chained hash table and the LRU cache built on it (`HashTable`, over `Chains`);
  * the second hash map and the multimap (`Map`);
  * the hit/miss-counting cache facade (`CacheManager`);
  * the binary min-heap (`MinHeap`);
  * the bounded ring buffer (`CircularQueue`);
  * the bounded stack that drops its oldest element (`Stack`);
  * the file-backed doubly linked list (`DoublyLinkedList`);
  * the segment tree over daily trip statistics (`SegmentTree`, `SegmentLayout`,
    `SegmentStatistics`).

  Objects the source updates in place are classes, with `modifies` frames and a `Valid()`
  invariant. Each is tied to an abstract value: a mapping, a sequence or a multiset.
* **Codecs and parsers**:
  * the Base64 encoder (RFC 4648 section 4), proved to round-trip;
  * JSON string escaping (a subset of RFC 8259 section 7) and the response shapes (`ResponseBuilder`);
  * the flat `SimpleJSON` reader and the operation router (`RequestHandler`);
  * the INI-style configuration loader (`Config`);
  * the session-id validator, session-id generator and XOR cipher (`Security`);
  * the CSV `split` and message classifier of the UDP receiver, with its field conversions (`UdpReceiver`).
* **Incident store** (`IncidentManager`): append, updates by id, order-preserving filters,
  statistics, and the saturating safety-score deduction written back to the record heap.

The modules `Wrappers`, `Seqs`, `Text`, `Decimal`, `Ints` and `NodeArrays` hold the shared
helpers:
* optional values;
* filters and first-match search;
* the semantics of `std::string::find`, trimming and `std::getline`;
* decimal printing and reading;
* 64-bit wrapping counters;
* the node-array shift and copy loops.

Integers are unbounded in Dafny. Where the source's width matters, it is written out:
* 64-bit counters wrap;
* the `stoul` sign wrap and the `stoi` range error are modelled;
* the port is truncated to 16 bits.

## Model

| member | source | states |
|---|---|---|
| SdmTypes.UserRoleOf | test_sdm/smart-drive-manager/include/sdm_types.hpp:14-19 | decodes exactly the codes 0..2, and each decoded role has that code |
| SdmTypes.VehicleTypeOf | test_sdm/smart-drive-manager/include/sdm_types.hpp:21-28 | decodes exactly the codes 0..4, and each decoded type has that code |
| SdmTypes.MaintenanceTypeOf | test_sdm/smart-drive-manager/include/sdm_types.hpp:30-38 | decodes exactly the codes 0..5, and each decoded type has that code |
| SdmTypes.ExpenseCategoryOf | test_sdm/smart-drive-manager/include/sdm_types.hpp:40-48 | decodes exactly the codes 0..5, and each decoded category has that code |
| SdmTypes.IncidentTypeOf | test_sdm/smart-drive-manager/include/sdm_types.hpp:50-57 | decodes exactly the codes 0..4, and each decoded type has that code |
| SdmTypes.DrivingEventTypeOf | test_sdm/smart-drive-manager/include/sdm_types.hpp:59-66 | decodes exactly the codes 0..4, and each decoded event has that code |
| SdmTypes.HeaderLayoutSize | test_sdm/smart-drive-manager/include/sdm_types.hpp:69-112 | the packed header fields add up to 4096 bytes |
| SdmTypes.DriverLayoutSize | test_sdm/smart-drive-manager/include/sdm_types.hpp:114-162 | the packed driver fields add up to 1024 bytes |
| SdmTypes.VehicleLayoutSize | test_sdm/smart-drive-manager/include/sdm_types.hpp:165-225 | the packed vehicle fields add up to 1024 bytes |
| SdmTypes.TripLayoutSize | test_sdm/smart-drive-manager/include/sdm_types.hpp:227-285 | the packed trip fields add up to 1024 bytes |
| SdmTypes.MaintenanceLayoutSize | test_sdm/smart-drive-manager/include/sdm_types.hpp:306-358 | the packed maintenance fields add up to 1024 bytes |
| SdmTypes.ExpenseLayoutSize | test_sdm/smart-drive-manager/include/sdm_types.hpp:361-412 | the packed expense fields add up to 1024 bytes |
| SdmTypes.DocumentLayoutSize | test_sdm/smart-drive-manager/include/sdm_types.hpp:415-448 | the packed document fields add up to 1024 bytes |
| SdmTypes.IncidentLayoutSize | test_sdm/smart-drive-manager/include/sdm_types.hpp:450-512 | the packed incident fields add up to 2048 bytes |
| SdmTypes.CString | test_sdm/smart-drive-manager/source/core/IncidentManager.h:85-88 | a buffer filled by strncpy with n - 1 characters holds a prefix of the text of at most n - 1 characters, with no NUL, that stops early only at a NUL |
| SdmTypes.CStringFits | test_sdm/smart-drive-manager/source/core/IncidentManager.h:85-88 | text that fits and has no NUL is stored unchanged |
| SdmTypes.Defaults | test_sdm/smart-drive-manager/include/sdm_types.hpp:100-159 | the constructors' defaults: the header magic, version and capacities, every id 0 (the free-slot sentinel), drivers and vehicles active, safety score 1000 |
| Config.StoULNumeral | test_sdm/smart-drive-manager/include/sdm_config.hpp:102-108 | `stoul`/`stoull` read back every printed number below 2^64 |
| Config.StoULNegative | test_sdm/smart-drive-manager/include/sdm_config.hpp:102-108 | `stoul` of a negative numeral wraps to 2^64 - n instead of failing |
| Config.StoINumeral | test_sdm/smart-drive-manager/include/sdm_config.hpp:111-114 | `stoi` reads back a printed number inside the `int` range and throws beyond it |
| Config.NoDigitsThrows | test_sdm/smart-drive-manager/include/sdm_config.hpp:100-126 | text without a digit after blanks and a sign makes every conversion throw |
| Config.UnknownIgnored | test_sdm/smart-drive-manager/include/sdm_config.hpp:100-133 | an unrecognised section or key changes nothing and never throws |
| Config.ThrowsOnlyOnNumbers | test_sdm/smart-drive-manager/include/sdm_config.hpp:100-133 | an assignment fails only when a number conversion fails |
| Config.SectionLocal | test_sdm/smart-drive-manager/include/sdm_config.hpp:100-133 | an assignment changes only the section it names |
| Config.LaterOverrides | test_sdm/smart-drive-manager/include/sdm_config.hpp:100-133 | a later assignment to the same key overrides an earlier one |
| Config.PortWraps | test_sdm/smart-drive-manager/include/sdm_config.hpp:111 | the port keeps the converted number modulo 2^16 (no range check) |
| Config.CommentIgnored | test_sdm/smart-drive-manager/include/sdm_config.hpp:60-64 | everything from the first `#` on is ignored |
| Config.BlankChangesNothing | test_sdm/smart-drive-manager/include/sdm_config.hpp:66-70 | a blank or comment-only line changes nothing |
| Config.HeaderSetsSection | test_sdm/smart-drive-manager/include/sdm_config.hpp:72-76 | a bracketed line sets the section to the text between the brackets |
| Config.NoEqualsIgnored | test_sdm/smart-drive-manager/include/sdm_config.hpp:78-80 | a line with no `=` that is not a header changes nothing |
| Config.PairLine | test_sdm/smart-drive-manager/include/sdm_config.hpp:78-92 | a `key=value` line yields the key before the first `=` and the value after it, each trimmed |
| Config.ThrewStays | test_sdm/smart-drive-manager/include/sdm_config.hpp:92 | once a conversion has thrown, no later line changes anything |
| Config.SdmConfig.constructor | test_sdm/smart-drive-manager/include/sdm_config.hpp:43-53 | the defaults of every setting |
| Config.SdmConfig.ParseValue | test_sdm/smart-drive-manager/include/sdm_config.hpp:100-133 | succeeds exactly when the assignment is defined, and then the settings are the assigned ones; otherwise they are unchanged |
| Config.SdmConfig.LoadLine | test_sdm/smart-drive-manager/include/sdm_config.hpp:58-92 | one line moves the state by one step of the line-by-line reading |
| Config.SdmConfig.LoadFromFile | test_sdm/smart-drive-manager/include/sdm_config.hpp:55-97 | false exactly when there is no file; otherwise the settings are those of reading all lines in order, and it throws exactly when a conversion threw |
| Base64.Base64Encode | test_sdm/smart-drive-manager/source/modules/websocket_bridge.cpp:34-76 | the returned text is `Encode(bytes)`: whole groups of three bytes give four table characters each, a final one- or two-byte group is zero-filled and padded with '=' |
| Base64.EncodeLength | test_sdm/smart-drive-manager/source/modules/websocket_bridge.cpp:42-73 | the output has four characters per started group of three input bytes, and empty input gives empty output |
| Base64.EncodeAlphabet | test_sdm/smart-drive-manager/source/modules/websocket_bridge.cpp:29-32 | every output character is one of the 64 table characters, except '=' which appears only in the last two positions |
| Base64.TableIsAlphabet | test_sdm/smart-drive-manager/source/modules/websocket_bridge.cpp:29-32 | indexing the 64-character table agrees with the standard alphabet A-Z, a-z, 0-9, '+', '/' |
| Base64.EncodeConcat | test_sdm/smart-drive-manager/source/modules/websocket_bridge.cpp:42-56 | encoding a whole number of groups followed by more bytes is the concatenation of the two encodings |
| Base64.EncodeTail | test_sdm/smart-drive-manager/source/modules/websocket_bridge.cpp:58-73 | a final partial group of one or two bytes yields two or three characters of its quad followed by two or one '=' |
| Base64.DecodeEncode | test_sdm/smart-drive-manager/source/modules/websocket_bridge.cpp:34-76 | decoding the output yields the input bytes back: the encoding is lossless |
| UdpReceiver.Split | test_sdm/smart-drive-manager/source/modules/udp_receiver.h:137-147 | the `getline` loop yields exactly `Text.Split(str, delimiter)` |
| UdpReceiver.ParseMessage | test_sdm/smart-drive-manager/source/modules/udp_receiver.h:76-135 | the datagram is classified as Classify says: the converted timestamp and fields 2..11 for ADAS_DATA, the event fields and converted timestamp for ADAS_EVENT, nothing otherwise or when a conversion throws |
| UdpReceiver.Classify | test_sdm/smart-drive-manager/source/modules/udp_receiver.h:76-135 | an ADAS_DATA packet exactly for a datagram tagged so with at least 12 fields whose numbers all convert, an ADAS_EVENT exactly for one tagged so with at least 6 whose numbers all convert; the packet's timestamp is what `stoull` reads and its other fields are the datagram's |
| UdpReceiver.EmptyIgnored | test_sdm/smart-drive-manager/source/modules/udp_receiver.h:77-79 | an empty datagram reaches no callback |
| UdpReceiver.OnlyTaggedAccepted | test_sdm/smart-drive-manager/source/modules/udp_receiver.h:81-134 | a datagram reaches a callback only when its first field is ADAS_DATA with 12 or more fields, or ADAS_EVENT with 6 or more, and every numeric field converts |
| UdpReceiver.BadTimestampDropped | test_sdm/smart-drive-manager/source/modules/udp_receiver.h:82-84 | a data datagram whose timestamp has no leading digit throws in `stoull` and reaches no callback |
| UdpReceiver.EventTimestampRead | test_sdm/smart-drive-manager/source/modules/udp_receiver.h:113-129 | an event whose timestamp is a printed number below 2^64 is delivered with that number |
| UdpReceiver.EventDelivered | test_sdm/smart-drive-manager/source/modules/udp_receiver.h:113-129 | comma-free event fields joined by commas, whose numbers convert, are delivered with the event type and the three values verbatim and the timestamp `stoull` reads |
| UdpReceiver.DataDelivered | test_sdm/smart-drive-manager/source/modules/udp_receiver.h:81-98 | comma-free data fields joined by commas, whose numbers convert, are delivered with the timestamp `stoull` reads and the next ten fields verbatim |
| Text.Split | test_sdm/smart-drive-manager/source/modules/udp_receiver.h:137-147 | the stream yields no token exactly when the string is empty |
| Text.SplitTokensFree | test_sdm/smart-drive-manager/source/modules/udp_receiver.h:137-147 | no token produced by the `getline` loop contains the delimiter |
| Text.JoinSplit | test_sdm/smart-drive-manager/source/modules/udp_receiver.h:137-147 | joining the tokens with the delimiter restores the input whenever the input does not end in the delimiter |
| Text.SplitJoin | test_sdm/smart-drive-manager/source/modules/udp_receiver.h:137-147 | splitting a join of delimiter-free tokens whose last token is non-empty gives the tokens back |
| Text.GetLine | test_sdm/smart-drive-manager/source/modules/udp_receiver.h:142 | one `getline` fails exactly at the end of the stream, clearing the token; otherwise it moves forward and the tokens from its old position are its token followed by the tokens from the new one |
| Text.Trim | test_sdm/smart-drive-manager/include/sdm_config.hpp:68-69 | the trimmed text is empty or both starts and ends with a non-blank character |
| Text.TrimChars | test_sdm/smart-drive-manager/include/sdm_config.hpp:68-69 | every character of the trimmed text occurs in the input, and every non-blank character of the input survives |
| Text.TrimClean | test_sdm/smart-drive-manager/include/sdm_config.hpp:68-69 | a string that neither starts nor ends with a blank is unchanged |
| Security.IsValidSessionId | test_sdm/smart-drive-manager/source/core/SecurityManager.h:92-106 | true exactly when the id has 64 characters, each a digit or a lower-case letter a-f |
| Security.GenerateSessionId | test_sdm/smart-drive-manager/source/core/SecurityManager.h:67-80 | every generated id is accepted by `is_valid_session_id`, whatever the 64 draws in 0..15 are |
| Security.HexCharsAreDigits | test_sdm/smart-drive-manager/source/core/SecurityManager.h:69 | every entry of the draw table is a lower-case hexadecimal digit |
| Security.EncryptData | test_sdm/smart-drive-manager/source/core/SecurityManager.h:81-87 | the first `size` bytes of the output are the input XORed with the key repeated cyclically, the rest of the output is unchanged, also when input and output are the same buffer |
| Security.DecryptData | test_sdm/smart-drive-manager/source/core/SecurityManager.h:88-91 | decryption computes the same function as encryption |
| Security.CipherInvolution | test_sdm/smart-drive-manager/source/core/SecurityManager.h:81-91 | applying the cipher twice with the same non-empty key restores the input |
| Security.DecryptRestores | test_sdm/smart-drive-manager/source/core/SecurityManager.h:81-91 | decrypting what `encrypt_data` produced with the same key gives the plaintext back |
| Security.VerifyPasswordExact | test_sdm/smart-drive-manager/source/core/SecurityManager.h:62-65 | a password verifies against its own hash, and a hash verifies a password only when it is that password's hash |
| ResponseBuilder.EscapeJson | test_sdm/smart-drive-manager/source/server/ResponseBuilder.h:72-88 | the result is `Escape(str)`: each of '"', '\\', line feed, carriage return and tab becomes its two-character escape, everything else is copied |
| ResponseBuilder.Escape | test_sdm/smart-drive-manager/source/server/ResponseBuilder.h:72-88 | the escaped text is at least as long as the input and at most twice as long |
| ResponseBuilder.UnescapeEscape | test_sdm/smart-drive-manager/source/server/ResponseBuilder.h:72-88 | reading the escaped text back gives the original string |
| ResponseBuilder.EscapeNoControl | test_sdm/smart-drive-manager/source/server/ResponseBuilder.h:72-88 | the escaped text contains no raw line feed, carriage return or tab |
| ResponseBuilder.EscapePlain | test_sdm/smart-drive-manager/source/server/ResponseBuilder.h:72-88 | a string without special characters is copied unchanged |
| ResponseBuilder.Success | test_sdm/smart-drive-manager/source/server/ResponseBuilder.h:13-37 | the text is the success object with the status code and, only for a non-empty map, a data object of its pairs in key order separated by commas |
| ResponseBuilder.Error | test_sdm/smart-drive-manager/source/server/ResponseBuilder.h:40-50 | the text is the error object with the code verbatim and the message escaped |
| ResponseBuilder.ErrorDeterminesMessage | test_sdm/smart-drive-manager/source/server/ResponseBuilder.h:40-50 | two error responses with the same code are equal only when their messages are equal |
| ResponseBuilder.List | test_sdm/smart-drive-manager/source/server/ResponseBuilder.h:53-69 | the text carries the status, the count as a decimal numeral, and the escaped message only when the message is non-empty |
| RequestHandler.EraseAll | test_sdm/smart-drive-manager/source/server/RequestHandler.h:31-33 | the result is the input with every occurrence of the character removed and the rest kept in order |
| RequestHandler.EraseThree | test_sdm/smart-drive-manager/source/server/RequestHandler.h:30-33 | removing '{', then '}', then '"' is removing all three structural characters at once |
| RequestHandler.Clean | test_sdm/smart-drive-manager/source/server/RequestHandler.h:30-33 | the cleaned body is no longer than the body |
| RequestHandler.CleanChars | test_sdm/smart-drive-manager/source/server/RequestHandler.h:30-33 | the cleaned body contains no brace and no quote |
| RequestHandler.Parse | test_sdm/smart-drive-manager/source/server/RequestHandler.h:26-56 | the returned map is the one the comma-separated tokens of the cleaned body give, each token with a colon storing its trimmed key and value |
| RequestHandler.Store | test_sdm/smart-drive-manager/source/server/RequestHandler.h:40-51 | one token with a colon stores its trimmed key and value, a token without one changes nothing |
| RequestHandler.ParseTokensSnoc | test_sdm/smart-drive-manager/source/server/RequestHandler.h:38-52 | each further token updates the map by that token alone |
| RequestHandler.ParseLastWins | test_sdm/smart-drive-manager/source/server/RequestHandler.h:38-52 | a key is present exactly when some token gives it, and its value is the one from the last such token |
| RequestHandler.EntryShape | test_sdm/smart-drive-manager/source/server/RequestHandler.h:40-50 | the key of a token is cut at its first colon, and both key and value come out trimmed and free of structural characters |
| RequestHandler.ParsedShape | test_sdm/smart-drive-manager/source/server/RequestHandler.h:26-56 | every key read is trimmed and holds no comma, colon, brace or quote, and every value is trimmed and holds no comma, brace or quote |
| RequestHandler.SplitChars | test_sdm/smart-drive-manager/source/server/RequestHandler.h:38 | every character of a token is a character of the cleaned body |
| RequestHandler.TrimmedPart | test_sdm/smart-drive-manager/source/server/RequestHandler.h:46-49 | trimming a string free of given characters leaves it free of them, and trimmed |
| RequestHandler.CleanPair | test_sdm/smart-drive-manager/source/server/ResponseBuilder.h:27 | cleaning one `"key":"value"` pair of the response builder leaves its `key:value` token |
| RequestHandler.CleanPairs | test_sdm/smart-drive-manager/source/server/ResponseBuilder.h:24-29 | cleaning the comma-separated pairs leaves the tokens joined by commas |
| RequestHandler.CleanObject | test_sdm/smart-drive-manager/source/server/ResponseBuilder.h:22-31 | cleaning a braced object of pairs leaves the tokens joined by commas |
| RequestHandler.ColonEntry | test_sdm/smart-drive-manager/source/server/RequestHandler.h:40-50 | the token of a plain entry reads back as that entry |
| RequestHandler.ParseColons | test_sdm/smart-drive-manager/source/server/RequestHandler.h:38-52 | reading the tokens of plain entries gives the map of the entries, a later entry overriding an earlier one with the same key |
| RequestHandler.ColonsNoComma | test_sdm/smart-drive-manager/source/server/RequestHandler.h:38 | no token of plain entries holds a comma and the last one is not empty, so the split recovers them |
| RequestHandler.ParsePairs | test_sdm/smart-drive-manager/source/server/RequestHandler.h:26-56 | an object of plain entries, written as the response builder writes its data pairs, is read back as the map of its entries |
| RequestHandler.GetValue | test_sdm/smart-drive-manager/source/server/RequestHandler.h:58-64 | the stored value when the key is present, the default otherwise |
| RequestHandler.RequestBody | test_sdm/smart-drive-manager/source/server/RequestHandler.h:98-101 | the body is everything after the first blank line that ends the headers, or the whole request when there is none |
| RequestHandler.StartsWithPrefix | test_sdm/smart-drive-manager/source/server/RequestHandler.h:129-150 | `find(prefix) == 0` holds exactly when the operation begins with the prefix |
| RequestHandler.PrefixHandler | test_sdm/smart-drive-manager/source/server/RequestHandler.h:129-157 | a matched prefix selects one of the six record handlers |
| RequestHandler.HandleRequest | test_sdm/smart-drive-manager/source/server/RequestHandler.h:92-165 | the outcome is the dispatch of the parameters read from the body, with the session check applied to the `session_id` parameter |
| RequestHandler.HandleLogin | test_sdm/smart-drive-manager/source/server/RequestHandler.h:167-193 | login fails with INVALID_PARAMS exactly when the username or password is missing or empty, and otherwise reaches the session manager |
| RequestHandler.HandleRegister | test_sdm/smart-drive-manager/source/server/RequestHandler.h:195-218 | registration fails exactly when the username, password or full name is missing or empty, and otherwise reaches the session manager |
| RequestHandler.PublicIgnoresSession | test_sdm/smart-drive-manager/source/server/RequestHandler.h:107-118 | login, register and logout do not depend on the session check and are never refused as unauthorised |
| RequestHandler.ProtectedNeedsSession | test_sdm/smart-drive-manager/source/server/RequestHandler.h:119-125 | every other operation with a session that fails validation is refused as UNAUTHORIZED |
| RequestHandler.ForwardedProtected | test_sdm/smart-drive-manager/source/server/RequestHandler.h:119-157 | a record handler is reached only with a valid session, the trip handler exactly for operations starting with `trip_`, and a valid-session operation with no known prefix is refused as UNKNOWN_OPERATION |
| Stack.Last | test_sdm/smart-drive-manager/source/data_structures/Stack.h:32-50 | `pop` and `top` find nothing exactly when the stack is empty, and otherwise the last element |
| Stack.PushBounded | test_sdm/smart-drive-manager/source/data_structures/Stack.h:23-30 | a push never takes the stack past its bound, grows it by one below the bound, and puts the item on top |
| Stack.PushThenPop | test_sdm/smart-drive-manager/source/data_structures/Stack.h:23-40 | popping right after a push returns the pushed item and leaves what the push kept underneath |
| Stack.PushedAllKeepsLatest | test_sdm/smart-drive-manager/source/data_structures/Stack.h:23-30 | a stack holds the last `max_size` elements ever pushed onto it, oldest at the bottom |
| Stack.PushedAllFresh | test_sdm/smart-drive-manager/source/data_structures/Stack.h:18-30 | up to its bound, a fresh stack lists the pushed elements bottom to top, as `get_all` returns them |
| Stack.Stack.constructor | test_sdm/smart-drive-manager/source/data_structures/Stack.h:18-21 | a new stack is empty with the given bound |
| Stack.Stack.Push | test_sdm/smart-drive-manager/source/data_structures/Stack.h:23-30 | the oldest element is dropped when the stack is full, then the item goes on top; the bound is kept |
| Stack.Stack.Pop | test_sdm/smart-drive-manager/source/data_structures/Stack.h:32-41 | an empty stack reports underflow and is unchanged; otherwise the top element is returned and removed |
| Stack.Stack.Top | test_sdm/smart-drive-manager/source/data_structures/Stack.h:43-59 | the top element without removing it, or underflow on an empty stack |
| Stack.Stack.Empty | test_sdm/smart-drive-manager/source/data_structures/Stack.h:61 | true exactly when the stack holds nothing |
| Stack.Stack.Clear | test_sdm/smart-drive-manager/source/data_structures/Stack.h:65 | the stack becomes empty, its bound unchanged |
| Stack.Stack.GetAll | test_sdm/smart-drive-manager/source/data_structures/Stack.h:67 | the elements bottom to top |
| CircularQueue.NextSlot | test_sdm/smart-drive-manager/source/data_structures/CircularQueue.h:86 | advancing an index by one modulo the capacity wraps from the last slot to 0 |
| CircularQueue.SlotIsMod | test_sdm/smart-drive-manager/source/data_structures/CircularQueue.h:75-127 | the slot of the k-th queued item is `(head + k) % capacity` |
| CircularQueue.CircularQueue.Contents | test_sdm/smart-drive-manager/source/data_structures/CircularQueue.h:75-127 | the queue holds `size` items read from `head` on, wrapping around |
| CircularQueue.CircularQueue.constructor | test_sdm/smart-drive-manager/source/data_structures/CircularQueue.h:45-49 | a new queue is empty, not shut down, with both indices at 0 |
| CircularQueue.CircularQueue.TryEnqueue | test_sdm/smart-drive-manager/source/data_structures/CircularQueue.h:75-90 | refused exactly when full or shut down; otherwise the item is appended at the back of the contents and size grows by one; the ring invariant `tail == (head + size) % capacity` is kept |
| CircularQueue.CircularQueue.TryDequeue | test_sdm/smart-drive-manager/source/data_structures/CircularQueue.h:112-127 | refused exactly when empty, whether or not the queue was shut down; otherwise the front item is returned and removed, so items leave in arrival order |
| CircularQueue.CircularQueue.Peek | test_sdm/smart-drive-manager/source/data_structures/CircularQueue.h:129-140 | the front item, or nothing on an empty queue |
| CircularQueue.CircularQueue.Empty | test_sdm/smart-drive-manager/source/data_structures/CircularQueue.h:144 | true exactly when the contents are empty |
| CircularQueue.CircularQueue.Full | test_sdm/smart-drive-manager/source/data_structures/CircularQueue.h:145 | true exactly when the queue holds `capacity` items |
| CircularQueue.CircularQueue.Shutdown | test_sdm/smart-drive-manager/source/data_structures/CircularQueue.h:147-155 | later enqueues are refused, the contents stay |
| CircularQueue.CircularQueue.Clear | test_sdm/smart-drive-manager/source/data_structures/CircularQueue.h:157-164 | head, tail and size go back to 0, the contents become empty, and the shutdown flag stays |
| MinHeap.Swap | test_sdm/smart-drive-manager/source/data_structures/MinHeap.h:22-57 | swapping two positions keeps the length and the multiset of elements |
| MinHeap.UpStep | test_sdm/smart-drive-manager/source/data_structures/MinHeap.h:22-29 | one `heapify_up` swap with a larger parent moves the one disorder one level up |
| MinHeap.UpDone | test_sdm/smart-drive-manager/source/data_structures/MinHeap.h:22-29 | where `heapify_up` stops, everything above its start is in heap order |
| MinHeap.DownStep | test_sdm/smart-drive-manager/source/data_structures/MinHeap.h:31-57 | one `heapify_down` swap with the smallest child moves the one disorder one level down |
| MinHeap.DownDone | test_sdm/smart-drive-manager/source/data_structures/MinHeap.h:31-57 | where `heapify_down` stops, the subtrees from its start are heaps |
| MinHeap.AboveChildren | test_sdm/smart-drive-manager/source/data_structures/MinHeap.h:31-57 | with the order above and below a position restored, the whole vector is a heap |
| MinHeap.AboveIsDownInv | test_sdm/smart-drive-manager/source/data_structures/MinHeap.h:124-139 | after `heapify_up` has run, `heapify_down` may start at the same position |
| MinHeap.AppendPrepared | test_sdm/smart-drive-manager/source/data_structures/MinHeap.h:70-74 | appending to a heap leaves only the new element's link to its parent out of order |
| MinHeap.RootReplacedPrepared | test_sdm/smart-drive-manager/source/data_structures/MinHeap.h:85-102 | moving the last element to the root leaves only the links below the root out of order |
| MinHeap.ReplacedPrepared | test_sdm/smart-drive-manager/source/data_structures/MinHeap.h:104-122 | a lower rank at the index leaves only the link to its parent out of order, a higher or equal one only the links to its children |
| MinHeap.FillMultiset | test_sdm/smart-drive-manager/source/data_structures/MinHeap.h:124-139 | moving the last element into the hole removes exactly one occurrence of the removed element |
| MinHeap.FillPrepared | test_sdm/smart-drive-manager/source/data_structures/MinHeap.h:124-139 | after the hole is filled, only the links touching it are out of order |
| MinHeap.FillLast | test_sdm/smart-drive-manager/source/data_structures/MinHeap.h:124-139 | removing the last slot of a heap leaves a heap |
| MinHeap.RootIsMin | test_sdm/smart-drive-manager/source/data_structures/MinHeap.h:76-83 | the root ranks no higher than any element of a heap |
| MinHeap.RootIsMinAll | test_sdm/smart-drive-manager/source/data_structures/MinHeap.h:76-102 | the root ranks no higher than anything in the heap |
| MinHeap.TopKStep | test_sdm/smart-drive-manager/source/data_structures/MinHeap.h:141-152 | moving the least remaining element to the end of the result keeps it sorted and no greater than what remains |
| MinHeap.TopKDone | test_sdm/smart-drive-manager/source/data_structures/MinHeap.h:141-152 | the result is part of the heap and ranks no higher than the rest of it |
| MinHeap.MinHeap.constructor | test_sdm/smart-drive-manager/source/data_structures/MinHeap.h:60 | a new heap is empty |
| MinHeap.MinHeap.FromSeq | test_sdm/smart-drive-manager/source/data_structures/MinHeap.h:62-68 | the heap built from a vector is a valid heap over the same multiset |
| MinHeap.MinHeap.HeapifyUp | test_sdm/smart-drive-manager/source/data_structures/MinHeap.h:22-29 | the multiset is unchanged, and a vector out of order only at the index's link to its parent becomes a heap |
| MinHeap.MinHeap.HeapifyDown | test_sdm/smart-drive-manager/source/data_structures/MinHeap.h:31-57 | the multiset is unchanged, and a vector out of order only below the index becomes a heap from its start |
| MinHeap.MinHeap.Insert | test_sdm/smart-drive-manager/source/data_structures/MinHeap.h:70-74 | the heap stays valid, gains exactly the value and grows by one |
| MinHeap.MinHeap.Peek | test_sdm/smart-drive-manager/source/data_structures/MinHeap.h:76-83 | a least-ranked element of the heap, or underflow on an empty heap |
| MinHeap.MinHeap.ExtractMin | test_sdm/smart-drive-manager/source/data_structures/MinHeap.h:85-102 | underflow on an empty heap; otherwise the least-ranked element is returned, one occurrence of it removed, and the heap stays valid |
| MinHeap.MinHeap.Update | test_sdm/smart-drive-manager/source/data_structures/MinHeap.h:104-122 | out of range exactly for an index outside the heap, which is then unchanged; otherwise the element at the index is replaced by the new value and the heap stays valid |
| MinHeap.MinHeap.Resettle | test_sdm/smart-drive-manager/source/data_structures/MinHeap.h:134-138 | `heapify_up` then `heapify_down` at the same index restore the heap without changing the multiset |
| MinHeap.MinHeap.Remove | test_sdm/smart-drive-manager/source/data_structures/MinHeap.h:124-139 | out of range exactly for an index outside the heap; otherwise one occurrence of the element at the index is removed and the heap stays valid |
| MinHeap.MinHeap.GetTopK | test_sdm/smart-drive-manager/source/data_structures/MinHeap.h:141-152 | min(k, size) elements, in nondecreasing rank, taken from the heap, none ranking above what is left; the heap is unchanged |
| MinHeap.MinHeap.Empty | test_sdm/smart-drive-manager/source/data_structures/MinHeap.h:154 | true exactly when the heap is empty |
| MinHeap.MinHeap.Clear | test_sdm/smart-drive-manager/source/data_structures/MinHeap.h:156 | the heap becomes empty |
| MinHeap.AlertOrderIsPriority | test_sdm/smart-drive-manager/source/data_structures/MinHeap.h:184-187 | maintenance alerts compare by priority alone, and alerts of equal priority are unordered |
| Chains.Slot | test_sdm/smart-drive-manager/source/data_structures/HashTable.h:32-35 | the bucket of a key is `hash(key) % capacity`, always a valid bucket index |
| Chains.EmptyBuckets | test_sdm/smart-drive-manager/source/data_structures/HashTable.h:60-64 | a fresh table has `capacity` buckets, all empty |
| Chains.EmptyRepresents | test_sdm/smart-drive-manager/source/data_structures/HashTable.h:60-64 | a table of empty buckets stores the empty mapping |
| Chains.Walk | test_sdm/smart-drive-manager/source/data_structures/HashTable.h:99-111 | the walk along a chain stops at the first node holding the key, or reports that no node holds it |
| Chains.Lookup | test_sdm/smart-drive-manager/source/data_structures/HashTable.h:97-113 | a key is found in its own bucket exactly when it is stored, and the node found holds its value |
| Chains.Prepend | test_sdm/smart-drive-manager/source/data_structures/HashTable.h:85-94 | making a new node the head of its bucket stores one more key with its value |
| Chains.Overwrite | test_sdm/smart-drive-manager/source/data_structures/HashTable.h:76-83 | overwriting the value of the node holding a key rebinds that key and keeps the count |
| Chains.Unlink | test_sdm/smart-drive-manager/source/data_structures/HashTable.h:125-146 | unlinking the node holding a key removes exactly that key and lowers the count by one |
| Chains.Find | test_sdm/smart-drive-manager/source/data_structures/HashTable.h:97-113 | the value of the key's node when the key is stored, nothing otherwise |
| Chains.PlaceIn | test_sdm/smart-drive-manager/source/data_structures/HashTable.h:71-94 | an existing key's node takes the new value, an absent key gets a new head node; the table then stores the updated mapping |
| Chains.UnlinkIn | test_sdm/smart-drive-manager/source/data_structures/HashTable.h:121-148 | a stored key's node is unlinked and the mapping loses exactly that key; an absent key changes nothing |
| Chains.InsertAllIsMapOf | test_sdm/smart-drive-manager/source/data_structures/HashTable.h:44-56 | re-inserting a chain's nodes one by one extends the mapping the nodes before them build |
| Chains.InsertAllSize | test_sdm/smart-drive-manager/source/data_structures/HashTable.h:44-56 | re-inserting n nodes adds at most n keys |
| Chains.MapOfDistinct | test_sdm/smart-drive-manager/source/data_structures/HashTable.h:44-56 | nodes with distinct keys, inserted one by one, map each key to its own value and to nothing else |
| Chains.Traversal | test_sdm/smart-drive-manager/source/data_structures/HashTable.h:171-187 | the bucket-by-bucket traversal meets every stored key exactly once with its stored value |
| Chains.TraversalKeys | test_sdm/smart-drive-manager/source/data_structures/HashTable.h:171-187 | the traversal lists each stored key once, and its values line up with the keys |
| Chains.KeysOf | test_sdm/smart-drive-manager/source/data_structures/HashTable.h:171-187 | the double loop yields the key of every node, bucket by bucket, each chain from its head |
| Chains.ValuesOf | test_sdm/smart-drive-manager/source/data_structures/Map.h:267-280 | the double loop yields the value of every node in the same order as the keys |
| HashTable.HashTable.constructor | test_sdm/smart-drive-manager/source/data_structures/HashTable.h:60-64 | a new table stores nothing in `initial_capacity` empty buckets, with the given load factor |
| HashTable.HashTable.Default | test_sdm/smart-drive-manager/source/data_structures/HashTable.h:60 | the default table has 1024 buckets and load factor 3/4 |
| HashTable.HashTable.Place | test_sdm/smart-drive-manager/source/data_structures/HashTable.h:71-94 | the key is bound to the value, the size grows exactly when the key is new, and the capacity is unchanged |
| HashTable.HashTable.Insert | test_sdm/smart-drive-manager/source/data_structures/HashTable.h:71-95 | the key is bound to the value and nothing else changes in the mapping; the size grows exactly for a new key, and the capacity doubles exactly when that pushes the load over the factor |
| HashTable.HashTable.Rehash | test_sdm/smart-drive-manager/source/data_structures/HashTable.h:37-57 | the capacity doubles and the stored mapping and size are unchanged, with the load back under the factor |
| HashTable.HashTable.Reinsert | test_sdm/smart-drive-manager/source/data_structures/HashTable.h:44-56 | re-inserting one old chain stores the nodes in order without the load passing the factor, so no nested rehash fires |
| HashTable.HashTable.Get | test_sdm/smart-drive-manager/source/data_structures/HashTable.h:97-113 | succeeds exactly for a stored key and then yields its value |
| HashTable.HashTable.Contains | test_sdm/smart-drive-manager/source/data_structures/HashTable.h:115-119 | true exactly for a stored key |
| HashTable.HashTable.Remove | test_sdm/smart-drive-manager/source/data_structures/HashTable.h:121-148 | true exactly when the key was stored; the bindings are the old ones without the key, and the size drops by one exactly then |
| HashTable.HashTable.Clear | test_sdm/smart-drive-manager/source/data_structures/HashTable.h:150-164 | every bucket is empty, nothing is stored, and the capacity is kept |
| HashTable.HashTable.Keys | test_sdm/smart-drive-manager/source/data_structures/HashTable.h:171-187 | every stored key exactly once, `size` of them, in bucket order |
| HashTable.HashTable.Empty | test_sdm/smart-drive-manager/source/data_structures/HashTable.h:168 | true exactly when nothing is stored |
| HashTable.LoadStaysBelow | test_sdm/smart-drive-manager/source/data_structures/HashTable.h:44-56 | while a chain is re-inserted the load never passes the factor |
| HashTable.GrowthFits | test_sdm/smart-drive-manager/source/data_structures/HashTable.h:37-57 | after doubling, a table at most one entry over its load fits under the factor again |
| HashTable.Drop | test_sdm/smart-drive-manager/source/data_structures/HashTable.h:292-302 | removing a key from the recency list keeps every other key, drops only that key, and shortens a duplicate-free list by one when the key was there |
| HashTable.Touch | test_sdm/smart-drive-manager/source/data_structures/HashTable.h:208-220 | after a use the key is at the front and every other key is kept, with no duplicate and one more entry only when the key was new |
| HashTable.PutOrder | test_sdm/smart-drive-manager/source/data_structures/HashTable.h:268-290 | after a put into a cache with room for at least one key, the key heads the recency list, and no key other than it or an old one appears |
| HashTable.PutContents | test_sdm/smart-drive-manager/source/data_structures/HashTable.h:268-290 | after a put, every cached key is the put key or an old one, kept in the list, with its old value; the put key, when cached, holds the new value |
| HashTable.DropTouched | test_sdm/smart-drive-manager/source/data_structures/HashTable.h:292-302 | removing a key after a use of it leaves the list that removing it directly leaves |
| HashTable.TouchTwice | test_sdm/smart-drive-manager/source/data_structures/HashTable.h:255-290 | touching the key already at the front changes nothing |
| HashTable.LRUCache.constructor | test_sdm/smart-drive-manager/source/data_structures/HashTable.h:236-242 | a new cache is empty, with the given capacity |
| HashTable.LRUCache.Get | test_sdm/smart-drive-manager/source/data_structures/HashTable.h:255-266 | a hit returns the cached value and moves the key to the front; a miss changes nothing; the table is unchanged |
| HashTable.PutKeepsKey | test_sdm/smart-drive-manager/source/data_structures/HashTable.h:268-290 | a put into a cache with room for at least one key keeps the put key cached: the tail it may drop is another key |
| HashTable.LRUCache.Put | test_sdm/smart-drive-manager/source/data_structures/HashTable.h:268-290 | the key takes the value and moves to the front; a list grown past the capacity loses its least recent key; every other cached value is unchanged; the new list and entries are PutOrder and PutContents of the old ones |
| HashTable.LRUCache.EvictTail | test_sdm/smart-drive-manager/source/data_structures/HashTable.h:282-289 | with one key over capacity, the least recent key leaves both the list and the table, which are otherwise unchanged |
| HashTable.LRUCache.Remove | test_sdm/smart-drive-manager/source/data_structures/HashTable.h:292-302 | the key leaves the list and the table, which are otherwise unchanged |
| HashTable.LRUCache.Clear | test_sdm/smart-drive-manager/source/data_structures/HashTable.h:306-319 | the list and the table are empty |
| HashTable.LRUCache.Size | test_sdm/smart-drive-manager/source/data_structures/HashTable.h:304 | the number of cached keys, never above the capacity |
| Map.Map.constructor | test_sdm/smart-drive-manager/source/data_structures/Map.h:105-108 | a new map stores nothing in `initial_capacity` empty buckets, with the given load factor |
| Map.Map.Default | test_sdm/smart-drive-manager/source/data_structures/Map.h:105 | the default map has 1024 buckets and load factor 3/4 |
| Map.Map.Place | test_sdm/smart-drive-manager/source/data_structures/Map.h:114-132 | the key is bound to the value, the size grows exactly when the key is new, and the capacity is unchanged |
| Map.Map.Insert | test_sdm/smart-drive-manager/source/data_structures/Map.h:114-134 | the key is bound to the value; the size grows exactly for a new key, and the capacity doubles exactly when that pushes the load over the factor |
| Map.Map.Rehash | test_sdm/smart-drive-manager/source/data_structures/Map.h:35-52 | the capacity doubles and the stored mapping and size are unchanged |
| Map.Map.Reinsert | test_sdm/smart-drive-manager/source/data_structures/Map.h:41-51 | re-inserting one old chain stores its nodes in order without passing the load factor |
| Map.Map.At | test_sdm/smart-drive-manager/source/data_structures/Map.h:136-149 | the value of a stored key with the map unchanged, or a missing key first inserted with the default value, which is returned |
| Map.Map.Get | test_sdm/smart-drive-manager/source/data_structures/Map.h:151-164 | succeeds exactly for a stored key and then yields its value |
| Map.Map.Contains | test_sdm/smart-drive-manager/source/data_structures/Map.h:166-169 | true exactly for a stored key |
| Map.Map.Find | test_sdm/smart-drive-manager/source/data_structures/Map.h:171-197 | the stored value of the key, or none (a null result) when it is absent |
| Map.Map.Erase | test_sdm/smart-drive-manager/source/data_structures/Map.h:199-220 | true exactly when the key was stored; the key is gone and every other binding unchanged |
| Map.Map.Clear | test_sdm/smart-drive-manager/source/data_structures/Map.h:222-233 | nothing is stored and the capacity is kept |
| Map.Map.Size | test_sdm/smart-drive-manager/source/data_structures/Map.h:235 | the number of stored keys |
| Map.Map.Empty | test_sdm/smart-drive-manager/source/data_structures/Map.h:237 | true exactly when nothing is stored |
| Map.Map.Keys | test_sdm/smart-drive-manager/source/data_structures/Map.h:252-265 | every stored key exactly once, in bucket order |
| Map.Map.Values | test_sdm/smart-drive-manager/source/data_structures/Map.h:267-280 | the stored values, position by position the values of the keys `keys` lists |
| Map.TotalRemove | test_sdm/smart-drive-manager/source/data_structures/Map.h:322-329 | the total count splits into any key's list length plus the count of the rest |
| Map.Rebind | test_sdm/smart-drive-manager/source/data_structures/Map.h:292-302 | binding a key to a non-empty list changes the total by the difference in its list length |
| Map.Unbind | test_sdm/smart-drive-manager/source/data_structures/Map.h:322-329 | dropping a key lowers the total by the length of its list |
| Map.AccountedZero | test_sdm/smart-drive-manager/source/data_structures/Map.h:354 | with no empty list stored, the total is zero exactly when no key is stored |
| Map.FirstPos | test_sdm/smart-drive-manager/source/data_structures/Map.h:334 | `std::find` reports the first position holding the value |
| Map.RemoveFirst | test_sdm/smart-drive-manager/source/data_structures/Map.h:331-345 | removing the first occurrence shortens the list by one when the value is present and changes nothing otherwise |
| Map.RemoveFirstIsErase | test_sdm/smart-drive-manager/source/data_structures/Map.h:334-337 | `erase` at `std::find`'s position removes exactly the first occurrence |
| Map.MultiMap.constructor | test_sdm/smart-drive-manager/source/data_structures/Map.h:290 | a new multimap is empty with a zero count |
| Map.MultiMap.Insert | test_sdm/smart-drive-manager/source/data_structures/Map.h:292-302 | the value is appended to the key's list, a new key starting a list, and the count grows by one |
| Map.MultiMap.Get | test_sdm/smart-drive-manager/source/data_structures/Map.h:304-308 | the key's list, or the empty list for an absent key |
| Map.MultiMap.Contains | test_sdm/smart-drive-manager/source/data_structures/Map.h:310-312 | true exactly when the key has a list |
| Map.MultiMap.Count | test_sdm/smart-drive-manager/source/data_structures/Map.h:314-320 | the length of the key's list, zero exactly for an absent key |
| Map.MultiMap.EraseKey | test_sdm/smart-drive-manager/source/data_structures/Map.h:322-329 | true exactly for a stored key, which leaves with its whole list; the count falls by that list's length; other keys are unchanged |
| Map.MultiMap.EraseValue | test_sdm/smart-drive-manager/source/data_structures/Map.h:331-345 | true exactly when the key's list holds the value; its first occurrence is removed, the key dropped once its list is empty, the count lowered by one; otherwise nothing changes |
| Map.MultiMap.Shrink | test_sdm/smart-drive-manager/source/data_structures/Map.h:335-342 | the key's list becomes the shortened one, or the key is dropped when it is empty; the count falls by one |
| Map.MultiMap.Clear | test_sdm/smart-drive-manager/source/data_structures/Map.h:347-350 | no keys and a zero count |
| Map.MultiMap.Size | test_sdm/smart-drive-manager/source/data_structures/Map.h:352 | the number of values over all keys |
| Map.MultiMap.KeyCount | test_sdm/smart-drive-manager/source/data_structures/Map.h:353 | the number of keys |
| Map.MultiMap.Empty | test_sdm/smart-drive-manager/source/data_structures/Map.h:354 | true exactly when there are no values, which is exactly when there are no keys |
| Map.MultiMap.Keys | test_sdm/smart-drive-manager/source/data_structures/Map.h:356-358 | every key exactly once |
| CacheManager.NewEntry | test_sdm/smart-drive-manager/source/core/CacheManager.h:21-23 | a new entry holds the record, the current time, no accesses and the given dirty flag |
| CacheManager.Accessed | test_sdm/smart-drive-manager/source/core/CacheManager.h:63 | a read raises the 32-bit access count by one, wrapping, and keeps record, time and dirty flag |
| CacheManager.ExpiredForward | test_sdm/smart-drive-manager/source/core/CacheManager.h:133-135 | with the clock not behind the last activity, a session is expired exactly once 1801 whole seconds have passed |
| CacheManager.ExpiredBackward | test_sdm/smart-drive-manager/source/core/CacheManager.h:133-135 | a last activity ahead of the clock wraps to a huge idle time, so the session counts as expired |
| CacheManager.HitRateAsWrittenOverflows | test_sdm/smart-drive-manager/source/core/CacheManager.h:205-206 | counters whose 64-bit sum wraps give a hit rate above one |
| CacheManager.HitRate | test_sdm/smart-drive-manager/source/core/CacheManager.h:205-206 | the hit rate lies between 0 and 1, is 0 exactly without hits and 1 exactly with hits and no misses |
| CacheManager.HitRateAgrees | test_sdm/smart-drive-manager/source/core/CacheManager.h:205-206 | below 2^64 accesses the rate as written is the hit rate |
| CacheManager.RecordCache.constructor | test_sdm/smart-drive-manager/source/core/CacheManager.h:50-57 | a new record cache is empty, with the given capacity and zero counters |
| CacheManager.RecordCache.Get | test_sdm/smart-drive-manager/source/core/CacheManager.h:59-70 | a hit returns the cached record, moves its id to the front, stores the entry with one more access and counts a hit; a miss changes no entry and counts a miss |
| CacheManager.RecordCache.Reaccess | test_sdm/smart-drive-manager/source/core/CacheManager.h:63-65 | the entry goes back with one more access at the front of the recency list, and a hit is counted |
| CacheManager.RecordCache.Put | test_sdm/smart-drive-manager/source/core/CacheManager.h:72-76 | the id moves to the front holding a fresh entry of the record with the given dirty flag, the least recent id is evicted when over capacity, and other entries are unchanged: the list and entries are PutOrder and PutContents of the old ones |
| CacheManager.RecordCache.Warmup | test_sdm/smart-drive-manager/source/core/CacheManager.h:256-266 | putting every record of the list in order, clean, under its key, each stamped with the clock reading its own put takes, leaves exactly the list and entries Warmed gives from the old ones |
| CacheManager.RecordCache.WarmNext | test_sdm/smart-drive-manager/source/core/CacheManager.h:257-259 | one more put, at that record's own clock reading, extends the Warmed state by one record |
| CacheManager.Warmed | test_sdm/smart-drive-manager/source/core/CacheManager.h:256-266 | after a warmup every cached entry is an old one or a fresh clean entry of a warmed record under its key, stamped with the clock reading of that record's own put; with room for a key, the last record heads the list and is cached with a fresh clean entry stamped with the last reading |
| CacheManager.WarmedStep | test_sdm/smart-drive-manager/source/core/CacheManager.h:257-259 | warming one more record is one put, stamped with that record's reading, onto the state the earlier records left |
| CacheManager.WarmedOrigin | test_sdm/smart-drive-manager/source/core/CacheManager.h:256-266 | if every entry before a put came from the start or an earlier record, every entry after the put of the next record still does |
| CacheManager.WarmedLast | test_sdm/smart-drive-manager/source/core/CacheManager.h:257-259 | with room for one key, the record just put heads the list and is cached with its own reading |
| CacheManager.RecordCache.Invalidate | test_sdm/smart-drive-manager/source/core/CacheManager.h:78-80 | the id leaves the cache, other entries are unchanged |
| CacheManager.RecordCache.Clear | test_sdm/smart-drive-manager/source/core/CacheManager.h:244-247 | the cache is empty |
| CacheManager.RecordCache.PutThenGet | test_sdm/smart-drive-manager/source/core/CacheManager.h:59-76 | a record just put is read back and counted as a hit |
| CacheManager.RecordCache.InvalidateThenGet | test_sdm/smart-drive-manager/source/core/CacheManager.h:59-80 | a record just invalidated is a miss |
| CacheManager.SessionCache.constructor | test_sdm/smart-drive-manager/source/core/CacheManager.h:53-57 | a new session cache is empty, with the given capacity and zero counters |
| CacheManager.SessionCache.Get | test_sdm/smart-drive-manager/source/core/CacheManager.h:129-148 | a session is returned exactly when cached and not expired, with its last activity set to now and stored back, the id moved to the front and every other entry unchanged; an expired session is removed from the list and the entries and nothing else changes; an absent id changes no entry and no list position; hits and misses are counted |
| CacheManager.SessionCache.Expire | test_sdm/smart-drive-manager/source/core/CacheManager.h:135-139 | the expired session leaves the list and the entries, which are otherwise unchanged, and a miss is counted |
| CacheManager.SessionCache.Refresh | test_sdm/smart-drive-manager/source/core/CacheManager.h:141-144 | the refreshed session is stored under its id, which moves to the front with nothing evicted, and a hit is counted |
| CacheManager.SessionCache.Put | test_sdm/smart-drive-manager/source/core/CacheManager.h:150-152 | the session is cached under its id at the front, other sessions unchanged: the list and entries are PutOrder and PutContents of the old ones |
| CacheManager.SessionCache.Invalidate | test_sdm/smart-drive-manager/source/core/CacheManager.h:154-156 | the session leaves the cache, other sessions unchanged |
| CacheManager.SessionCache.Clear | test_sdm/smart-drive-manager/source/core/CacheManager.h:248 | no session is cached |
| CacheManager.QueryCache.constructor | test_sdm/smart-drive-manager/source/core/CacheManager.h:34 | a new query cache is empty |
| CacheManager.QueryCache.Get | test_sdm/smart-drive-manager/source/core/CacheManager.h:159-161 | the cached result list exactly for a cached key |
| CacheManager.QueryCache.Put | test_sdm/smart-drive-manager/source/core/CacheManager.h:163-165 | the key maps to the results, other keys unchanged |
| CacheManager.QueryCache.Invalidate | test_sdm/smart-drive-manager/source/core/CacheManager.h:167-169 | the key is no longer cached, other keys unchanged |
| CacheManager.QueryCache.PutThenGet | test_sdm/smart-drive-manager/source/core/CacheManager.h:159-165 | a result list just put is read back |
| CacheManager.QueryCache.Clear | test_sdm/smart-drive-manager/source/core/CacheManager.h:171-173 | no query result is cached |
| CacheManager.CacheManager.constructor | test_sdm/smart-drive-manager/source/core/CacheManager.h:46-57 | the five caches are empty with the given capacities and every counter is zero |
| CacheManager.CacheManager.GetStats | test_sdm/smart-drive-manager/source/core/CacheManager.h:200-230 | the statistics report each counter, each cache's size and each hit rate as the program computes it, over the wrapped 64-bit sum of hits and misses (the true rate below 2^64 accesses, by HitRateAgrees) |
| CacheManager.CacheManager.ResetStats | test_sdm/smart-drive-manager/source/core/CacheManager.h:232-241 | every counter is zero and no cache changes |
| CacheManager.CacheManager.ClearAll | test_sdm/smart-drive-manager/source/core/CacheManager.h:244-250 | all five caches are empty |
| CacheManager.CacheManager.ClearLookupsAfterRecords | test_sdm/smart-drive-manager/source/core/CacheManager.h:244-250 | clearing the session and query-result caches after the record caches leaves all five empty |
| CacheManager.CacheManager.PutDriver | test_sdm/smart-drive-manager/source/core/CacheManager.h:72-76 | the driver is cached under its id with a fresh entry; the driver list and entries are PutOrder and PutContents of the old ones |
| CacheManager.CacheManager.PutVehicle | test_sdm/smart-drive-manager/source/core/CacheManager.h:95-99 | the vehicle is cached under its id with a fresh entry; the vehicle list and entries are PutOrder and PutContents of the old ones |
| CacheManager.CacheManager.WarmupDrivers | test_sdm/smart-drive-manager/source/core/CacheManager.h:256-260 | every profile is put under its own id, in order, clean, stamped with the clock reading of its own put: the driver list and entries are what Warmed gives; the last one is cached afterwards with the last reading |
| CacheManager.CacheManager.WarmupVehicles | test_sdm/smart-drive-manager/source/core/CacheManager.h:262-266 | every vehicle is put under its own id, in order, clean, stamped with the clock reading of its own put: the vehicle list and entries are what Warmed gives; the last one is cached afterwards with the last reading |
| SegmentStatistics.MergeCounts | test_sdm/smart-drive-manager/source/data_structures/SegmentTree.h:28-49 | `merge` adds the four counters and takes the larger maximum and the smaller minimum speed; the default statistics leave the counters unchanged |
| SegmentStatistics.MergeIdentity | test_sdm/smart-drive-manager/source/data_structures/SegmentTree.h:28-49 | the default statistics are an identity of `merge` exactly for statistics whose speeds are in range |
| SegmentStatistics.MergeAssociative | test_sdm/smart-drive-manager/source/data_structures/SegmentTree.h:28-49 | `merge` is associative and commutative, so the shape of the tree cannot change a range's statistics |
| SegmentStatistics.MergeInRange | test_sdm/smart-drive-manager/source/data_structures/SegmentTree.h:28-49 | statistics in range stay in range under `merge` |
| SegmentStatistics.FoldSplit | test_sdm/smart-drive-manager/source/data_structures/SegmentTree.h:97-117 | the statistics of a day range are those of its two halves merged |
| SegmentStatistics.FoldInRange | test_sdm/smart-drive-manager/source/data_structures/SegmentTree.h:97-117 | the statistics of a range of in-range days are in range |
| SegmentStatistics.FoldOutside | test_sdm/smart-drive-manager/source/data_structures/SegmentTree.h:120-144 | changing a day outside a range leaves the range's statistics unchanged |
| SegmentStatistics.FoldCombine | test_sdm/smart-drive-manager/source/data_structures/SegmentTree.h:112-116 | the query parts of the two children merge into the query part of their parent |
| SegmentLayout.Children | test_sdm/smart-drive-manager/source/data_structures/SegmentTree.h:68-94 | an inner node's children are the next node and the node after the left subtree, splitting its days at the midpoint |
| SegmentLayout.ChildrenOk | test_sdm/smart-drive-manager/source/data_structures/SegmentTree.h:68-94 | the children of a well-built inner node are well built over the two halves of its days |
| SegmentLayout.OkRangeJoin | test_sdm/smart-drive-manager/source/data_structures/SegmentTree.h:68-94 | two adjacent well-built blocks of nodes form one |
| SegmentLayout.OkWellFormed | test_sdm/smart-drive-manager/source/data_structures/SegmentTree.h:68-94 | a well-built tree only points to later nodes inside the vector, so the recursion over it ends |
| SegmentLayout.BlockInside | test_sdm/smart-drive-manager/source/data_structures/SegmentTree.h:68-94 | every node of a subtree covers days inside its root's days |
| SegmentLayout.NodeIsFold | test_sdm/smart-drive-manager/source/data_structures/SegmentTree.h:68-94 | every node holds the merged statistics of exactly its days |
| SegmentLayout.LeftUpdated | test_sdm/smart-drive-manager/source/data_structures/SegmentTree.h:133-134 | after the left subtree is updated, the node's children are ready for the merge |
| SegmentLayout.RightUpdated | test_sdm/smart-drive-manager/source/data_structures/SegmentTree.h:135-136 | after the right subtree is updated, the node's children are ready for the merge |
| SegmentLayout.Assembled | test_sdm/smart-drive-manager/source/data_structures/SegmentTree.h:140-143 | merging the ready children's statistics into the node makes its block well built again |
| SegmentLayout.LeftDone | test_sdm/smart-drive-manager/source/data_structures/SegmentTree.h:120-144 | an update through the left child leaves the subtree well built for the new day's statistics, touching only the subtree |
| SegmentLayout.RightDone | test_sdm/smart-drive-manager/source/data_structures/SegmentTree.h:120-144 | an update through the right child leaves the subtree well built for the new day's statistics, touching only the subtree |
| SegmentLayout.NodeOkTransfer | test_sdm/smart-drive-manager/source/data_structures/SegmentTree.h:120-144 | a node stays well built when its subtree and its day's statistics are unchanged |
| SegmentLayout.OkRangeSetBelow | test_sdm/smart-drive-manager/source/data_structures/SegmentTree.h:120-144 | changing a node before a block leaves the block well built |
| SegmentLayout.OkRangeExtend | test_sdm/smart-drive-manager/source/data_structures/SegmentTree.h:68-94 | appending nodes after a block leaves the block well built |
| SegmentLayout.UpdateUntouched | test_sdm/smart-drive-manager/source/data_structures/SegmentTree.h:120-144 | a subtree whose days do not include the updated day stays well built |
| SegmentTree.QueryOutside | test_sdm/smart-drive-manager/source/data_structures/SegmentTree.h:103-105 | a node whose days lie outside the query contributes the default statistics |
| SegmentTree.QueryInside | test_sdm/smart-drive-manager/source/data_structures/SegmentTree.h:108-110 | a node whose days lie inside the query contributes its stored statistics |
| SegmentTree.QueryStep | test_sdm/smart-drive-manager/source/data_structures/SegmentTree.h:112-116 | a partly overlapping node merges the answers of its two children |
| SegmentTree.QueryIsFold | test_sdm/smart-drive-manager/source/data_structures/SegmentTree.h:97-117 | `query_recursive` from a node yields the merged statistics of the node's days that lie in the query range |
| SegmentTree.QueryOverlap | test_sdm/smart-drive-manager/source/data_structures/SegmentTree.h:112-116 | a partly overlapping node answers the merged statistics of its days in the query range |
| SegmentTree.QueryJoin | test_sdm/smart-drive-manager/source/data_structures/SegmentTree.h:112-116 | the answers of the two children merge into the parent's answer |
| SegmentTree.DayOf | test_sdm/smart-drive-manager/source/data_structures/SegmentTree.h:169-176 | a timestamp at or after the base date, less than 2^31 days later, falls on day `(ts - base) / 86400` |
| SegmentTree.SegmentTree.constructor | test_sdm/smart-drive-manager/source/data_structures/SegmentTree.h:147-150 | a new tree has no nodes and no days, with the given day count and base date |
| SegmentTree.SegmentTree.BuildRec | test_sdm/smart-drive-manager/source/data_structures/SegmentTree.h:68-94 | the nodes for days `start..end` are appended in preorder, the subtree's root first, and the appended block is well built |
| SegmentTree.SegmentTree.Build | test_sdm/smart-drive-manager/source/data_structures/SegmentTree.h:153-157 | the tree is well built over the daily statistics, with one node per segment and the day count set to their number |
| SegmentTree.SegmentTree.QueryRange | test_sdm/smart-drive-manager/source/data_structures/SegmentTree.h:160-166 | the merged statistics of the days in the clamped range, or the default statistics for an empty range |
| SegmentTree.SegmentTree.QueryByTimestamp | test_sdm/smart-drive-manager/source/data_structures/SegmentTree.h:169-176 | the range query over the days of the two timestamps |
| SegmentTree.SegmentTree.AllStats | test_sdm/smart-drive-manager/source/data_structures/SegmentTree.h:192-194 | the merged statistics of all days, or the default for an empty tree |
| SegmentTree.SegmentTree.MonthlyStats | test_sdm/smart-drive-manager/source/data_structures/SegmentTree.h:197-204 | the range query over the 30 days of the month counted from January 2024 |
| SegmentTree.SegmentTree.QuarterlyStats | test_sdm/smart-drive-manager/source/data_structures/SegmentTree.h:206-213 | the range query over the 90 days of the quarter counted from 2024 |
| SegmentTree.SegmentTree.YearlyStats | test_sdm/smart-drive-manager/source/data_structures/SegmentTree.h:215-222 | the range query over the 365 days of the year counted from 2024 |
| SegmentTree.SegmentTree.UpdateRec | test_sdm/smart-drive-manager/source/data_structures/SegmentTree.h:120-144 | the subtree holds the statistics of the days with the new day's statistics replaced; nodes outside the subtree are unchanged |
| SegmentTree.SegmentTree.UpdateLeft | test_sdm/smart-drive-manager/source/data_structures/SegmentTree.h:133-143 | an update through the left child: the subtree is rebuilt for the new statistics, nothing outside it changes |
| SegmentTree.SegmentTree.UpdateRight | test_sdm/smart-drive-manager/source/data_structures/SegmentTree.h:135-143 | an update through the right child: the subtree is rebuilt for the new statistics, nothing outside it changes |
| SegmentTree.SegmentTree.UpdateDay | test_sdm/smart-drive-manager/source/data_structures/SegmentTree.h:179-182 | a day inside the tree takes the new statistics and the tree stays well built; a day outside changes nothing |
| SegmentTree.SegmentTree.UpdateByTimestamp | test_sdm/smart-drive-manager/source/data_structures/SegmentTree.h:185-190 | the day of the timestamp takes the new statistics when it is inside the tree, and nothing changes otherwise |
| DoublyLinkedList.LinksChains | test_sdm/smart-drive-manager/source/data_structures/DoublyLinkedList.h:115-209 | a linked list whose nodes link both ways can be walked forward from the head and backward from the tail |
| DoublyLinkedList.Nodes | test_sdm/smart-drive-manager/source/data_structures/DoublyLinkedList.h:211-262 | the forward walk meets one node per list position |
| DoublyLinkedList.NodesBackward | test_sdm/smart-drive-manager/source/data_structures/DoublyLinkedList.h:281-295 | the backward walk meets one node per list position |
| DoublyLinkedList.Contents | test_sdm/smart-drive-manager/source/data_structures/DoublyLinkedList.h:115-209 | the list holds one entry per node |
| DoublyLinkedList.BelowEnd | test_sdm/smart-drive-manager/source/data_structures/DoublyLinkedList.h:69-74 | every linked node lies inside the file, and the head and tail are the first and last node, non-zero exactly for a non-empty list |
| DoublyLinkedList.HeadInserted | test_sdm/smart-drive-manager/source/data_structures/DoublyLinkedList.h:115-144 | a node written at the end of the file and linked before the old head makes a well-linked list with the new entry first |
| DoublyLinkedList.TailInserted | test_sdm/smart-drive-manager/source/data_structures/DoublyLinkedList.h:146-175 | a node written at the end of the file and linked after the old tail makes a well-linked list with the new entry last |
| DoublyLinkedList.RemovedAt | test_sdm/smart-drive-manager/source/data_structures/DoublyLinkedList.h:177-209 | unlinking a node keeps every other node's links right |
| DoublyLinkedList.DistinctRemoved | test_sdm/smart-drive-manager/source/data_structures/DoublyLinkedList.h:177-209 | removing one node keeps the node offsets distinct |
| DoublyLinkedList.Removed | test_sdm/smart-drive-manager/source/data_structures/DoublyLinkedList.h:177-209 | unlinking the i-th node leaves a well-linked list of the other entries in order |
| DoublyLinkedList.EmptyIffNoNodes | test_sdm/smart-drive-manager/source/data_structures/DoublyLinkedList.h:301 | the count is zero exactly when there is no head, exactly when the list is empty |
| DoublyLinkedList.RangeInWindow | test_sdm/smart-drive-manager/source/data_structures/DoublyLinkedList.h:237-262 | `get_range` returns only nodes of the list whose timestamps lie in the window |
| DoublyLinkedList.RangeNewestFirst | test_sdm/smart-drive-manager/source/data_structures/DoublyLinkedList.h:237-262 | on a list ordered newest first, `get_range` returns exactly the nodes in the window |
| DoublyLinkedList.NoneInWindow | test_sdm/smart-drive-manager/source/data_structures/DoublyLinkedList.h:237-262 | nodes all older than the window give nothing |
| DoublyLinkedList.RangeStopsAtOlder | test_sdm/smart-drive-manager/source/data_structures/DoublyLinkedList.h:250-253 | the scan stops at the first node older than the window |
| DoublyLinkedList.RangeStep | test_sdm/smart-drive-manager/source/data_structures/DoublyLinkedList.h:243-258 | one step of the scan adds the node when it is in the window and stops past it |
| DoublyLinkedList.VisitsStep | test_sdm/smart-drive-manager/source/data_structures/DoublyLinkedList.h:264-279 | one step of a traversal visits the node and goes on exactly when the callback returns true |
| DoublyLinkedList.WalkStep | test_sdm/smart-drive-manager/source/data_structures/DoublyLinkedList.h:264-279 | the loop's visited nodes followed by the rest of the traversal are the whole traversal |
| DoublyLinkedList.VisitsPrefix | test_sdm/smart-drive-manager/source/data_structures/DoublyLinkedList.h:264-295 | a traversal visits a prefix of the list, all of it when the callback never refuses, and stops right after the first refusal |
| DoublyLinkedList.DoublyLinkedList.constructor | test_sdm/smart-drive-manager/source/data_structures/DoublyLinkedList.h:76 | a new list object is closed, with default metadata, over the given file |
| DoublyLinkedList.DoublyLinkedList.ReadNode | test_sdm/smart-drive-manager/source/data_structures/DoublyLinkedList.h:52-59 | reading succeeds exactly for a non-zero offset of a stored node on an open file, and then yields it |
| DoublyLinkedList.DoublyLinkedList.WriteNode | test_sdm/smart-drive-manager/source/data_structures/DoublyLinkedList.h:61-67 | writing succeeds exactly on an open file and stores the node at the offset, growing the file past it |
| DoublyLinkedList.DoublyLinkedList.Create | test_sdm/smart-drive-manager/source/data_structures/DoublyLinkedList.h:83-93 | a file that can be opened is truncated to the in-memory metadata stamped with the owner, with no nodes; the list stays closed either way |
| DoublyLinkedList.DoublyLinkedList.Open | test_sdm/smart-drive-manager/source/data_structures/DoublyLinkedList.h:95-103 | an existing file is opened and its metadata read, and opening reports success exactly when its magic number is right |
| DoublyLinkedList.DoublyLinkedList.Close | test_sdm/smart-drive-manager/source/data_structures/DoublyLinkedList.h:105-113 | an open list writes its metadata back and is closed |
| DoublyLinkedList.DoublyLinkedList.InsertAtHead | test_sdm/smart-drive-manager/source/data_structures/DoublyLinkedList.h:115-144 | the node goes at the end of the file before the old head, the count rises by one, and the list gains the entry first |
| DoublyLinkedList.DoublyLinkedList.InsertAtTail | test_sdm/smart-drive-manager/source/data_structures/DoublyLinkedList.h:146-175 | the node goes at the end of the file after the old tail, the count rises by one, and the list gains the entry last |
| DoublyLinkedList.DoublyLinkedList.RemoveNode | test_sdm/smart-drive-manager/source/data_structures/DoublyLinkedList.h:177-209 | fails exactly when the node cannot be read; otherwise its neighbours are linked past it, the count drops by one, and the list loses exactly that entry |
| DoublyLinkedList.DoublyLinkedList.GetRecent | test_sdm/smart-drive-manager/source/data_structures/DoublyLinkedList.h:211-235 | a negative count fails (the `reserve` throws); otherwise the first `count` nodes from the head, or all of them |
| DoublyLinkedList.DoublyLinkedList.GetRange | test_sdm/smart-drive-manager/source/data_structures/DoublyLinkedList.h:237-262 | the nodes from the head on with timestamps in the window, stopping at the first older one |
| DoublyLinkedList.DoublyLinkedList.TraverseForward | test_sdm/smart-drive-manager/source/data_structures/DoublyLinkedList.h:264-279 | the nodes from the head on, up to and including the first the callback refuses |
| DoublyLinkedList.DoublyLinkedList.TraverseBackward | test_sdm/smart-drive-manager/source/data_structures/DoublyLinkedList.h:281-295 | the nodes from the tail back, up to and including the first the callback refuses |
| DatabaseManager.TablesOrdered | test_sdm/smart-drive-manager/source/core/DatabaseManager.h:34-67 | a table that `calculate_offsets` places earlier ends at or before the start of any later table |
| DatabaseManager.SlotInTable | test_sdm/smart-drive-manager/source/core/DatabaseManager.h:233-256 | the offset `start + i * sizeof(record)` of a slot below the table's capacity lies wholly inside that table |
| DatabaseManager.SlotInFile | test_sdm/smart-drive-manager/source/core/DatabaseManager.h:34-67 | every slot lies after the header and ends within `total_size` |
| DatabaseManager.SameTableDisjoint | test_sdm/smart-drive-manager/source/core/DatabaseManager.h:233-256 | two different slots of one table do not overlap |
| DatabaseManager.LaterTableDisjoint | test_sdm/smart-drive-manager/source/core/DatabaseManager.h:34-67 | a slot of an earlier table ends before any slot of a later table starts |
| DatabaseManager.SlotsDisjoint | test_sdm/smart-drive-manager/source/core/DatabaseManager.h:34-67 | any two distinct slots, in the same or in different tables, do not overlap, so a write to one never changes another |
| DatabaseManager.TotalSizeIs | test_sdm/smart-drive-manager/source/core/DatabaseManager.h:34-67 | `total_size` is the header plus 1024 bytes per driver, vehicle and trip slot plus the fixed maintenance, expense, document and incident tables |
| DatabaseManager.NoWrap | test_sdm/smart-drive-manager/source/core/DatabaseManager.h:34-67 | with 32-bit table capacities the running 64-bit offset never wraps |
| DatabaseManager.DefaultTotalSize | test_sdm/smart-drive-manager/source/core/DatabaseManager.h:34-67 | the default capacities give a file of 11120644096 bytes |
| DatabaseManager.NewHeader | test_sdm/smart-drive-manager/source/core/DatabaseManager.h:116-124 | the header `create` writes carries the magic, the configured capacities, the creation time as both timestamps and the offsets laid out from them |
| DatabaseManager.FirstMatch | test_sdm/smart-drive-manager/source/core/DatabaseManager.h:258-276 | a lookup scan finds a record exactly when some slot satisfies the match, and what it finds is such a slot's record |
| DatabaseManager.PutFirst | test_sdm/smart-drive-manager/source/core/DatabaseManager.h:233-256 | writing into the first matching slot changes that slot only, and nothing when no slot matches |
| DatabaseManager.ApplyFirst | test_sdm/smart-drive-manager/source/core/DatabaseManager.h:303-327 | rewriting the first matching record changes that slot only, and nothing when no slot matches |
| DatabaseManager.FindAfterPut | test_sdm/smart-drive-manager/source/core/DatabaseManager.h:233-276 | a record stored into a free slot is found by a later lookup for it when nothing matched before |
| DatabaseManager.FindAfterOverwrite | test_sdm/smart-drive-manager/source/core/DatabaseManager.h:258-301 | a record written over the first match of a lookup is what that lookup then returns |
| DatabaseManager.NoneAfterRewrite | test_sdm/smart-drive-manager/source/core/DatabaseManager.h:258-327 | after the only match is rewritten into a non-matching record, the lookup finds nothing |
| DatabaseManager.CountUpdate | test_sdm/smart-drive-manager/source/core/DatabaseManager.h:696-747 | overwriting one slot moves a count of matching slots by exactly the change at that slot |
| DatabaseManager.CreateThenReadDriver | test_sdm/smart-drive-manager/source/core/DatabaseManager.h:233-276 | an active driver created with a new id is what `read_driver` then returns |
| DatabaseManager.UpdateThenReadDriver | test_sdm/smart-drive-manager/source/core/DatabaseManager.h:258-301 | after `update_driver` with an active record, `read_driver` returns the new record |
| DatabaseManager.DeleteThenReadDriver | test_sdm/smart-drive-manager/source/core/DatabaseManager.h:258-327 | after `delete_driver` of an id held by one active slot, `read_driver` finds nothing |
| DatabaseManager.DeleteKeepsRecord | test_sdm/smart-drive-manager/source/core/DatabaseManager.h:303-327 | delete is a soft delete: the slot keeps the record with only `is_active` cleared |
| DatabaseManager.ActiveCountMoves | test_sdm/smart-drive-manager/source/core/DatabaseManager.h:233-256 | a successful create of an active driver adds one to the active count and a successful delete takes one off (also lines 303-327) |
| DatabaseManager.TripIdZeroIsFreeSlot | test_sdm/smart-drive-manager/source/core/DatabaseManager.h:496-539 | trip lookups match the id alone, so reading or updating trip 0 lands on the first free slot |
| DatabaseManager.FindSlot | test_sdm/smart-drive-manager/source/core/DatabaseManager.h:233-256 | the slot loop stops at the first slot that matches, or reports none after the whole table |
| DatabaseManager.CollectSlots | test_sdm/smart-drive-manager/source/core/DatabaseManager.h:329-350 | the collecting loop returns the matching records of the table in slot order |
| DatabaseManager.CollectFirstSlots | test_sdm/smart-drive-manager/source/core/DatabaseManager.h:541-564 | the collecting loop with a limit returns the first `limit` matching records in slot order |
| DatabaseManager.CountSlots | test_sdm/smart-drive-manager/source/core/DatabaseManager.h:696-747 | the counting loop returns the number of matching slots |
| DatabaseManager.DatabaseFile.constructor | test_sdm/smart-drive-manager/source/core/DatabaseManager.h:192-201 | a file already on disk, given by its header and tables |
| DatabaseManager.DatabaseFile.Formatted | test_sdm/smart-drive-manager/source/core/DatabaseManager.h:126-180 | the file `create` writes: the header, then every slot of every table holding its empty record, sized as the header says |
| DatabaseManager.DatabaseManager.constructor | test_sdm/smart-drive-manager/source/core/DatabaseManager.h:70 | a new manager is closed and holds a default header |
| DatabaseManager.DatabaseManager.CalculateOffsets | test_sdm/smart-drive-manager/source/core/DatabaseManager.h:34-67 | the header receives the laid-out table offsets and total size, and the manager's table starts are the same offsets |
| DatabaseManager.DatabaseManager.Create | test_sdm/smart-drive-manager/source/core/DatabaseManager.h:82-190 | when the file can be created it is replaced by a formatted file whose header is the new header, and the manager stays closed; otherwise nothing changes |
| DatabaseManager.DatabaseManager.Open | test_sdm/smart-drive-manager/source/core/DatabaseManager.h:192-218 | opening succeeds exactly when the file exists and its header has the magic; the header is read whenever the file exists, and the table starts are taken from it on success |
| DatabaseManager.DatabaseManager.Close | test_sdm/smart-drive-manager/source/core/DatabaseManager.h:220-231 | closing an open manager stamps `last_modified` and writes the header back; closing a closed one changes nothing |
| DatabaseManager.DatabaseManager.CreateDriver | test_sdm/smart-drive-manager/source/core/DatabaseManager.h:233-256 | on an open file the driver goes into the first inactive slot, and success means there was one; a closed manager changes nothing |
| DatabaseManager.DatabaseManager.ReadDriver | test_sdm/smart-drive-manager/source/core/DatabaseManager.h:258-276 | the first active slot with the id, or none (also when closed) |
| DatabaseManager.DatabaseManager.UpdateDriver | test_sdm/smart-drive-manager/source/core/DatabaseManager.h:278-301 | the first active slot with the driver's id is overwritten, and success means there was one |
| DatabaseManager.DatabaseManager.DeleteDriver | test_sdm/smart-drive-manager/source/core/DatabaseManager.h:303-327 | the first active slot with the id is marked inactive, and success means there was one |
| DatabaseManager.DatabaseManager.GetAllDrivers | test_sdm/smart-drive-manager/source/core/DatabaseManager.h:329-350 | every active driver in slot order, or none when closed |
| DatabaseManager.DatabaseManager.CreateVehicle | test_sdm/smart-drive-manager/source/core/DatabaseManager.h:352-375 | the vehicle goes into the first inactive slot, and success means there was one |
| DatabaseManager.DatabaseManager.ReadVehicle | test_sdm/smart-drive-manager/source/core/DatabaseManager.h:377-395 | the first active slot with the id, or none |
| DatabaseManager.DatabaseManager.UpdateVehicle | test_sdm/smart-drive-manager/source/core/DatabaseManager.h:397-420 | the first active slot with the vehicle's id is overwritten, and success means there was one |
| DatabaseManager.DatabaseManager.DeleteVehicle | test_sdm/smart-drive-manager/source/core/DatabaseManager.h:422-446 | the first active slot with the id is marked inactive, and success means there was one |
| DatabaseManager.DatabaseManager.GetVehiclesByOwner | test_sdm/smart-drive-manager/source/core/DatabaseManager.h:448-469 | every active vehicle of the owner in slot order |
| DatabaseManager.DatabaseManager.CreateTrip | test_sdm/smart-drive-manager/source/core/DatabaseManager.h:471-494 | the trip goes into the first slot with id 0, and success means there was one |
| DatabaseManager.DatabaseManager.ReadTrip | test_sdm/smart-drive-manager/source/core/DatabaseManager.h:496-514 | the first slot with the id, or none |
| DatabaseManager.DatabaseManager.UpdateTrip | test_sdm/smart-drive-manager/source/core/DatabaseManager.h:516-539 | the first slot with the trip's id is overwritten, and success means there was one |
| DatabaseManager.DatabaseManager.GetTripsByDriver | test_sdm/smart-drive-manager/source/core/DatabaseManager.h:541-564 | the driver's first `limit` stored trips in slot order |
| DatabaseManager.DatabaseManager.CreateMaintenance | test_sdm/smart-drive-manager/source/core/DatabaseManager.h:566-589 | the record goes into the first free maintenance slot, and success means there was one |
| DatabaseManager.DatabaseManager.GetMaintenanceByVehicle | test_sdm/smart-drive-manager/source/core/DatabaseManager.h:591-612 | every stored maintenance record of the vehicle in slot order |
| DatabaseManager.DatabaseManager.CreateExpense | test_sdm/smart-drive-manager/source/core/DatabaseManager.h:614-637 | the expense goes into the first free expense slot, and success means there was one |
| DatabaseManager.DatabaseManager.GetExpensesByDriver | test_sdm/smart-drive-manager/source/core/DatabaseManager.h:639-662 | the driver's first `limit` stored expenses in slot order |
| DatabaseManager.DatabaseManager.GetExpensesByCategory | test_sdm/smart-drive-manager/source/core/DatabaseManager.h:664-686 | the driver's stored expenses of the category in slot order |
| DatabaseManager.DatabaseManager.GetStats | test_sdm/smart-drive-manager/source/core/DatabaseManager.h:696-747 | the active driver, active vehicle and stored trip counts, and the file size as both size and used space; all zero when closed |
| IncidentManager.ScoreAfter | test_sdm/smart-drive-manager/source/core/IncidentManager.h:26-54 | the safety score after an incident never rises; it drops to 0 exactly when it does not exceed the deduction, and otherwise by exactly the deduction |
| IncidentManager.NoFaultKeepsScore | test_sdm/smart-drive-manager/source/core/IncidentManager.h:31-39 | breakdowns, thefts and vandalism cost no points |
| IncidentManager.DeductionsAdd | test_sdm/smart-drive-manager/source/core/IncidentManager.h:26-54 | two incidents cost their summed deduction, saturating at 0, in either order |
| IncidentManager.Penalized | test_sdm/smart-drive-manager/source/core/IncidentManager.h:20-57 | the driver record written back is the one read, with only the safety score lowered |
| IncidentManager.NewIncident | test_sdm/smart-drive-manager/source/core/IncidentManager.h:74-92 | the appended report carries the id, driver, vehicle, trip, type and time given, is unresolved, and holds the address and description cut to their buffers |
| IncidentManager.Select | test_sdm/smart-drive-manager/source/core/IncidentManager.h:182-221 | the range-for collecting loop returns the matching reports in order |
| IncidentManager.Latest | test_sdm/smart-drive-manager/source/core/IncidentManager.h:243-277 | the last-incident time is at least every report's time, and is one of them unless it is 0 |
| IncidentManager.IncMod | test_sdm/smart-drive-manager/source/core/IncidentManager.h:246 | a uint32_t counter incremented once holds the count of one more, modulo 2^32 |
| IncidentManager.CountSnoc | test_sdm/smart-drive-manager/source/core/IncidentManager.h:245-277 | one more report raises a count by one exactly when it matches |
| IncidentManager.ResolvedSplit | test_sdm/smart-drive-manager/source/core/IncidentManager.h:267-271 | every report is counted as resolved or as unresolved, never both |
| IncidentManager.TypeSplit | test_sdm/smart-drive-manager/source/core/IncidentManager.h:249-265 | the five incident types partition the reports |
| IncidentManager.StatisticsConsistent | test_sdm/smart-drive-manager/source/core/IncidentManager.h:237-287 | below 2^32 reports, resolved plus unresolved equals the total, and the per-type counters add up to at most the total |
| IncidentManager.SmallCounter | test_sdm/smart-drive-manager/source/core/IncidentManager.h:237-287 | below 2^32 reports, a counter is the exact count |
| IncidentManager.OpenIsDriverUnresolved | test_sdm/smart-drive-manager/source/core/IncidentManager.h:202-210 | a driver's unresolved reports are the unresolved ones among that driver's reports |
| IncidentManager.TypedIsDriverTyped | test_sdm/smart-drive-manager/source/core/IncidentManager.h:212-221 | a driver's reports of a type are the reports of that type among that driver's reports |
| IncidentManager.ReportedIsLast | test_sdm/smart-drive-manager/source/core/IncidentManager.h:66-97 | a newly reported incident becomes the last of its driver's incidents and leaves every other driver's list unchanged (also lines 182-190) |
| IncidentManager.AppendKeepsIdsUnique | test_sdm/smart-drive-manager/source/core/IncidentManager.h:74 | handing out ids from the incrementing counter keeps them unique, until the 64-bit counter wraps |
| IncidentManager.FreshIdUpdate | test_sdm/smart-drive-manager/source/core/IncidentManager.h:108-115 | the follow-up loop of report_accident and report_theft rewrites exactly the report just appended (also lines 134-140) |
| IncidentManager.ResolvedLeavesOpen | test_sdm/smart-drive-manager/source/core/IncidentManager.h:171-180 | with unique ids, a resolved report is in no driver's unresolved list (also lines 202-210) |
| IncidentManager.IncidentManager.constructor | test_sdm/smart-drive-manager/source/core/IncidentManager.h:63-64 | a manager on the given database and cache starts with no reports and the given first id |
| IncidentManager.IncidentManager.UpdateDriverSafety | test_sdm/smart-drive-manager/source/core/IncidentManager.h:20-60 | when the driver is read, the first live record with the id gets its score lowered and the driver leaves the cache with every other entry kept; otherwise nothing changes |
| IncidentManager.IncidentManager.Penalize | test_sdm/smart-drive-manager/source/core/IncidentManager.h:20-56 | the read and write-back half of the safety update: lowers the score of the driver read, reporting whether one was read |
| IncidentManager.IncidentManager.Record | test_sdm/smart-drive-manager/source/core/IncidentManager.h:74-94 | the next id is handed out, the counter goes up by one modulo 2^64, and the new report is appended |
| IncidentManager.IncidentManager.ReportIncident | test_sdm/smart-drive-manager/source/core/IncidentManager.h:66-97 | the report is appended under the next id and the driver's safety deduction applied |
| IncidentManager.IncidentManager.UpdateFirst | test_sdm/smart-drive-manager/source/core/IncidentManager.h:145-180 | the first report with the id is rewritten, and success means one exists |
| IncidentManager.IncidentManager.ReportAccident | test_sdm/smart-drive-manager/source/core/IncidentManager.h:99-118 | an accident without address is reported, then its other-party details filled in |
| IncidentManager.IncidentManager.ReportBreakdown | test_sdm/smart-drive-manager/source/core/IncidentManager.h:120-125 | a breakdown without address is reported, with no deduction |
| IncidentManager.IncidentManager.ReportTheft | test_sdm/smart-drive-manager/source/core/IncidentManager.h:127-143 | a theft without address is reported, then its police report number filled in |
| IncidentManager.IncidentManager.AddPoliceReport | test_sdm/smart-drive-manager/source/core/IncidentManager.h:145-154 | the first report with the id gets the number cut to its buffer; true exactly when such a report exists |
| IncidentManager.IncidentManager.AddInsuranceClaim | test_sdm/smart-drive-manager/source/core/IncidentManager.h:156-169 | the first report with the id gets the claim number cut to its buffer; true exactly when such a report exists |
| IncidentManager.IncidentManager.MarkResolved | test_sdm/smart-drive-manager/source/core/IncidentManager.h:171-180 | the first report with the id is resolved at the given time; true exactly when such a report exists |
| IncidentManager.IncidentManager.GetDriverIncidents | test_sdm/smart-drive-manager/source/core/IncidentManager.h:182-190 | the driver's reports in order |
| IncidentManager.IncidentManager.GetVehicleIncidents | test_sdm/smart-drive-manager/source/core/IncidentManager.h:192-200 | the vehicle's reports in order |
| IncidentManager.IncidentManager.GetUnresolvedIncidents | test_sdm/smart-drive-manager/source/core/IncidentManager.h:202-210 | the driver's unresolved reports in order |
| IncidentManager.IncidentManager.GetIncidentStatistics | test_sdm/smart-drive-manager/source/core/IncidentManager.h:237-287 | the uint32_t counters of the driver's reports by type and resolution, and whole days since the latest report (0 without one) |
| IncidentManager.IncidentManager.GetIncidentsByType | test_sdm/smart-drive-manager/source/core/IncidentManager.h:212-221 | the driver's reports of the type in order |
| IncidentManager.Tally | test_sdm/smart-drive-manager/source/core/IncidentManager.h:245-272 | one pass of the statistics loop: the counters of the reports seen plus one more |
| BTree.KeyOrder | test_sdm/smart-drive-manager/source/data_structures/BTree.h:27-59 | the composite-key comparison is a strict total order by type, id, timestamp and sequence, and `>`, `>=` are its converses |
| BTree.KeyPosition | test_sdm/smart-drive-manager/source/data_structures/BTree.h:247-255 | the scan position is the number of leading keys below the key: every earlier key is smaller and the key there, if any, is not |
| BTree.InsertionPoint | test_sdm/smart-drive-manager/source/data_structures/BTree.h:323-334 | the backward shift loop stops past every key greater than the new key, at a key that is not greater |
| BTree.LeafWith | test_sdm/smart-drive-manager/source/data_structures/BTree.h:323-339 | a leaf insertion adds one entry and keeps the node's kind, level and leaf link |
| BTree.LeafWithEntries | test_sdm/smart-drive-manager/source/data_structures/BTree.h:323-339 | the leaf's entries after an insertion are the old ones with the new pair at the insertion point |
| BTree.LeafWithSorted | test_sdm/smart-drive-manager/source/data_structures/BTree.h:323-339 | inserting into a sorted leaf keeps it sorted |
| BTree.FoundWhereInserted | test_sdm/smart-drive-manager/source/data_structures/BTree.h:247-255 | in a sorted leaf without the key, the scan for the inserted key stops on it and its value (also lines 323-339) |
| BTree.LowerHalf | test_sdm/smart-drive-manager/source/data_structures/BTree.h:280-300 | the split child keeps MIN_KEYS keys, and a leaf child links to the new node |
| BTree.UpperHalf | test_sdm/smart-drive-manager/source/data_structures/BTree.h:266-298 | the new node takes the MIN_KEYS keys after the median, at the child's level and kind |
| BTree.WithSeparator | test_sdm/smart-drive-manager/source/data_structures/BTree.h:303-311 | the parent gains the median at the child's index with the new node right of it, the left child kept |
| BTree.SplitKeepsKeys | test_sdm/smart-drive-manager/source/data_structures/BTree.h:266-311 | the lower keys, the median and the upper keys together are the full child's keys |
| BTree.SplitLinksLeaves | test_sdm/smart-drive-manager/source/data_structures/BTree.h:281-291 | a split leaf links to the new leaf, which links back to it and on to the old successor and holds the entries after the median |
| BTree.Store | test_sdm/smart-drive-manager/source/data_structures/BTree.h:190-201 | a write at a non-zero offset sets that page and keeps every other; a write at offset 0 changes nothing |
| BTree.Alloc | test_sdm/smart-drive-manager/source/data_structures/BTree.h:203-214 | a new empty page is appended at the end of the file, and no existing page changes |
| BTree.SplitPages | test_sdm/smart-drive-manager/source/data_structures/BTree.h:258-317 | `split_child` keeps the file's page bounds |
| BTree.DescentSlot | test_sdm/smart-drive-manager/source/data_structures/BTree.h:341-346 | the child index an insertion descends to is at most the key count |
| BTree.InsertPages | test_sdm/smart-drive-manager/source/data_structures/BTree.h:320-366 | `insert_non_full` keeps the file's page bounds |
| BTree.SplitDescent | test_sdm/smart-drive-manager/source/data_structures/BTree.h:350-363 | splitting a full child and descending keeps the file's page bounds |
| BTree.Descend | test_sdm/smart-drive-manager/source/data_structures/BTree.h:348-366 | reading a child and descending keeps the file's page bounds |
| BTree.SplitHalvesNotFull | test_sdm/smart-drive-manager/source/data_structures/BTree.h:355-362 | after a split, the child the insertion re-reads holds MIN_KEYS keys, so it has room |
| BTree.SearchStep | test_sdm/smart-drive-manager/source/data_structures/BTree.h:369-403 | one node of the search reports a hit only in a leaf whose key at the scan position is the key, and never descends from a leaf |
| BTree.FoundInLeaf | test_sdm/smart-drive-manager/source/data_structures/BTree.h:369-403 | whatever the search returns is a value stored with the key in some leaf |
| BTree.MedianLost | test_sdm/smart-drive-manager/source/data_structures/BTree.h:258-317 | a split leaf's median, found before the split, is no longer found: it moves up without its value and the search goes right of it (also lines 369-403) |
| BTree.HeldInRangeMeans | test_sdm/smart-drive-manager/source/data_structures/BTree.h:406-447 | the range results are exactly entries in the bounds stored in some leaf |
| BTree.LeafReportsHeld | test_sdm/smart-drive-manager/source/data_structures/BTree.h:419-425 | the matches of one leaf are leaf entries within the bounds |
| BTree.RangeSound | test_sdm/smart-drive-manager/source/data_structures/BTree.h:406-447 | every pair the range query reports lies within the bounds and is stored with that key in some leaf |
| BTree.RangeReportsLeafEntries | test_sdm/smart-drive-manager/source/data_structures/BTree.h:406-447 | every reported key is at least the start, at most the end, and held in a leaf with its value |
| BTree.LeafRangeSound | test_sdm/smart-drive-manager/source/data_structures/BTree.h:417-433 | a leaf's matches and the matches along its next-leaf chain are all held in range |
| BTree.RangeChildrenSound | test_sdm/smart-drive-manager/source/data_structures/BTree.h:434-445 | the matches gathered from the children of an internal node are all held in range |
| BTree.NewRoot | test_sdm/smart-drive-manager/source/data_structures/BTree.h:594-598 | the new root is internal, empty, one level above the old root and has the old root as its first child |
| BTree.InsertTree | test_sdm/smart-drive-manager/source/data_structures/BTree.h:585-617 | an insertion keeps a root, counts one more record modulo 2^64 and changes only the root, height and record count of the metadata |
| BTree.RootLeafFills | test_sdm/smart-drive-manager/source/data_structures/BTree.h:585-617 | up to MAX_KEYS insertions into a new file fill the root leaf, with the record count equal to the number inserted (also lines 459-519) |
| BTree.TenthInsertSplitsRoot | test_sdm/smart-drive-manager/source/data_structures/BTree.h:585-617 | the insertion after MAX_KEYS moves the root to a new internal page one level up over two leaves holding MAX_KEYS entries together |
| BTree.SplitRootInsert | test_sdm/smart-drive-manager/source/data_structures/BTree.h:591-605 | inserting into a file whose only page is a full root leaf splits it under a new root and adds the key to one of the two leaves |
| BTree.InsertUnderTwoLeaves | test_sdm/smart-drive-manager/source/data_structures/BTree.h:320-366 | an insertion under a one-key root over two half-full leaves lands in one of the leaves and adds no page |
| BTree.SplitFreshRoot | test_sdm/smart-drive-manager/source/data_structures/BTree.h:258-317 | the root split of a one-page file gives a root at the second page over leaves at the first and third with MIN_KEYS keys each (also lines 591-600) |
| BTree.InsertedIntoRootLeafIsFound | test_sdm/smart-drive-manager/source/data_structures/BTree.h:585-617 | a key inserted into a sorted root leaf with room that lacks it is then found with its value, and the leaf stays sorted (also lines 369-403) |
| BTree.FindKeyPosition | test_sdm/smart-drive-manager/source/data_structures/BTree.h:247-255 | the loop computes the scan position |
| BTree.ChildSlot | test_sdm/smart-drive-manager/source/data_structures/BTree.h:341-346 | the loop computes the child index an insertion descends to |
| BTree.LeafInsert | test_sdm/smart-drive-manager/source/data_structures/BTree.h:323-339 | the shift loop produces the leaf with the entry inserted |
| BTree.SplitNode | test_sdm/smart-drive-manager/source/data_structures/BTree.h:266-300 | the copy loops produce the two halves of the split |
| BTree.AddSeparator | test_sdm/smart-drive-manager/source/data_structures/BTree.h:303-311 | the shift loop produces the parent with the separator inserted |
| BTree.LeafMatches | test_sdm/smart-drive-manager/source/data_structures/BTree.h:419-425 | the leaf loop returns the entries within the bounds in order |
| BTree.Added | test_sdm/smart-drive-manager/source/data_structures/BTree.h:217-229 | the new entry goes last, and a full cache first drops its oldest entry, so the cache never exceeds CACHE_SIZE |
| BTree.Updated | test_sdm/smart-drive-manager/source/data_structures/BTree.h:232-244 | an update never grows the cache beyond CACHE_SIZE |
| BTree.AddedKeeps | test_sdm/smart-drive-manager/source/data_structures/BTree.h:217-229 | adding an uncached offset keeps offsets distinct, and keeps the cache agreeing with the file |
| BTree.UpdatedFinds | test_sdm/smart-drive-manager/source/data_structures/BTree.h:232-244 | after an update, the cache's first entry for the offset holds the new node |
| BTree.UpdatedKeeps | test_sdm/smart-drive-manager/source/data_structures/BTree.h:190-201 | writing a page and updating the cache with it keeps cache and file in agreement (also lines 232-244) |
| BTree.LookupReadsFile | test_sdm/smart-drive-manager/source/data_structures/BTree.h:166-188 | with a cache that agrees with the open file, reading a node is reading the file |
| BTree.BTree.constructor | test_sdm/smart-drive-manager/source/data_structures/BTree.h:449-452 | a new tree is closed, with an empty cache and default metadata |
| BTree.BTree.AddToCache | test_sdm/smart-drive-manager/source/data_structures/BTree.h:217-229 | the cache becomes the cache with the entry added, and nothing else changes |
| BTree.BTree.UpdateCache | test_sdm/smart-drive-manager/source/data_structures/BTree.h:232-244 | the cache becomes the updated cache, and nothing else changes |
| BTree.BTree.ReadNode | test_sdm/smart-drive-manager/source/data_structures/BTree.h:166-188 | a read at offset 0 fails; a cached node is returned; otherwise the page is read from an open file and cached |
| BTree.BTree.Load | test_sdm/smart-drive-manager/source/data_structures/BTree.h:166-188 | with a cache that agrees with the file, a read succeeds exactly for a page of the file and returns it |
| BTree.BTree.WriteNode | test_sdm/smart-drive-manager/source/data_structures/BTree.h:190-201 | a write at a non-zero offset of an open file stores the page, and the cache then returns it |
| BTree.BTree.AllocateNode | test_sdm/smart-drive-manager/source/data_structures/BTree.h:203-214 | the new page's offset is the old end of the file, and the file grows by one empty page |
| BTree.BTree.SplitChild | test_sdm/smart-drive-manager/source/data_structures/BTree.h:258-317 | the file and parent become those the split describes, with the parent one key larger or unchanged |
| BTree.BTree.InsertNonFull | test_sdm/smart-drive-manager/source/data_structures/BTree.h:320-366 | the file becomes that of the insertion into a non-full node |
| BTree.BTree.SplitAndDescend | test_sdm/smart-drive-manager/source/data_structures/BTree.h:350-363 | the file becomes that of splitting the full child and descending |
| BTree.BTree.StepAndDescend | test_sdm/smart-drive-manager/source/data_structures/BTree.h:357-366 | after the split, the descent goes right of the median exactly when the median is below the key, and the file becomes that of reading that child and descending |
| BTree.BTree.ReadAndDescend | test_sdm/smart-drive-manager/source/data_structures/BTree.h:348-366 | the file becomes that of reading the child and descending |
| BTree.BTree.Create | test_sdm/smart-drive-manager/source/data_structures/BTree.h:459-519 | a created file holds fresh metadata and one empty root leaf, the stream is left open for output only and the cache as it was; a failure closes the stream and changes nothing else |
| BTree.BTree.Open | test_sdm/smart-drive-manager/source/data_structures/BTree.h:521-560 | on a closed stream it reads the metadata of an existing file and succeeds exactly when the magic is right, leaving the stream open for both; an open stream is read in place, and on one opened for output only or failed the read fails, the metadata in memory decides, and the stream is left failed; a failure closes the stream |
| BTree.BTree.Close | test_sdm/smart-drive-manager/source/data_structures/BTree.h:562-582 | the cache is emptied, the metadata is written back exactly when the stream is open for writing and has not failed, and the stream is closed |
| BTree.BTree.Insert | test_sdm/smart-drive-manager/source/data_structures/BTree.h:585-617 | an insertion fails without a root; otherwise it counts one more record and raises the height by at most one, and on a stream open for both whose cache agrees with the file it performs InsertTree; the stream is left as it was |
| BTree.BTree.SplitRoot | test_sdm/smart-drive-manager/source/data_structures/BTree.h:591-603 | the full root is split under a new root at the newest page, which is returned |
| BTree.BTree.Search | test_sdm/smart-drive-manager/source/data_structures/BTree.h:619-622 | on a stream open for both whose cache agrees with the file: found exactly when Find finds the key, with its value, the caller's value kept on a miss; the file is unchanged |
| BTree.BTree.SearchFrom | test_sdm/smart-drive-manager/source/data_structures/BTree.h:369-403 | the recursive search from a node, as Find says |
| BTree.BTree.RangeQuery | test_sdm/smart-drive-manager/source/data_structures/BTree.h:624-631 | on a stream open for both whose cache agrees with the file: the pairs Range collects from the root; the file is unchanged |
| BTree.BTree.RangeFrom | test_sdm/smart-drive-manager/source/data_structures/BTree.h:406-447 | the pairs the recursive range query collects from a node |
| BTree.BTree.RangeOverChildren | test_sdm/smart-drive-manager/source/data_structures/BTree.h:434-445 | the pairs gathered from the children from the scan position on, stopping after a separator beyond the end |
| BPlusTree.MakeKey | test_sdm/smart-drive-manager/source/data_structures/BPlusTree.h:24-28 | a key built from text keeps a prefix of at most 127 characters with no NUL, stopping early only at a NUL |
| BPlusTree.KeyOrder | test_sdm/smart-drive-manager/source/data_structures/BPlusTree.h:35-58 | the strcmp order on keys is a strict total order, and `>`, `>=` are the negations of `<=`, `<` |
| BPlusTree.KeyPosition | test_sdm/smart-drive-manager/source/data_structures/BPlusTree.h:174-182 | the scan position is the number of leading keys below the key: every earlier key is smaller and the key there, if any, is not |
| BPlusTree.InsertionPoint | test_sdm/smart-drive-manager/source/data_structures/BPlusTree.h:240-249 | the backward shift loop stops past every key greater than the new key, at a key that is not greater |
| BPlusTree.LeafWith | test_sdm/smart-drive-manager/source/data_structures/BPlusTree.h:240-253 | a leaf insertion adds one entry and keeps the node's kind, level and leaf link |
| BPlusTree.LeafWithEntries | test_sdm/smart-drive-manager/source/data_structures/BPlusTree.h:240-253 | the leaf's entries after an insertion are the old ones with the new pair at the insertion point |
| BPlusTree.LeafWithSorted | test_sdm/smart-drive-manager/source/data_structures/BPlusTree.h:240-253 | inserting into a sorted leaf keeps it sorted |
| BPlusTree.LeafWithMultiset | test_sdm/smart-drive-manager/source/data_structures/BPlusTree.h:240-253 | a leaf insertion adds exactly the new pair to the leaf's entries, losing none |
| BPlusTree.FoundWhereInserted | test_sdm/smart-drive-manager/source/data_structures/BPlusTree.h:174-182 | in a sorted leaf without the key, the scan for the inserted key stops on it and its value |
| BPlusTree.LowerHalf | test_sdm/smart-drive-manager/source/data_structures/BPlusTree.h:202-220 | the split child keeps its slots with MIN_KEYS keys counted, and a leaf child links to the new node |
| BPlusTree.UpperHalf | test_sdm/smart-drive-manager/source/data_structures/BPlusTree.h:190-218 | the new node takes the MIN_KEYS keys after the median, at the child's level and kind |
| BPlusTree.WithSeparator | test_sdm/smart-drive-manager/source/data_structures/BPlusTree.h:222-230 | the parent gains the median at the child's index with the new node right of it, earlier keys and the left child kept |
| BPlusTree.SplitKeepsKeys | test_sdm/smart-drive-manager/source/data_structures/BPlusTree.h:194-228 | the lower keys, the median and the upper keys together are the full child's keys |
| BPlusTree.SplitLinksLeaves | test_sdm/smart-drive-manager/source/data_structures/BPlusTree.h:202-211 | a split leaf links to the new leaf, which links back to it and on to the old successor |
| BPlusTree.Store | test_sdm/smart-drive-manager/source/data_structures/BPlusTree.h:157-163 | a write to an open file sets that page and keeps every other; a write to a closed stream changes nothing |
| BPlusTree.Alloc | test_sdm/smart-drive-manager/source/data_structures/BPlusTree.h:165-172 | on an open file a new empty page is appended at the end and no existing page changes; on a closed stream nothing changes |
| BPlusTree.SplitPages | test_sdm/smart-drive-manager/source/data_structures/BPlusTree.h:184-235 | `split_child` keeps the file's page bounds and open state, and the parent gains one key |
| BPlusTree.DescentSlot | test_sdm/smart-drive-manager/source/data_structures/BPlusTree.h:255-259 | the child index an insertion descends to is at most the key count |
| BPlusTree.InsertPages | test_sdm/smart-drive-manager/source/data_structures/BPlusTree.h:237-274 | `insert_non_full` keeps the file's page bounds and open state |
| BPlusTree.SplitDescent | test_sdm/smart-drive-manager/source/data_structures/BPlusTree.h:264-272 | splitting a full child and descending keeps the file's page bounds and open state |
| BPlusTree.Descend | test_sdm/smart-drive-manager/source/data_structures/BPlusTree.h:261-272 | reading a child and descending keeps the file's page bounds and open state |
| BPlusTree.SearchStep | test_sdm/smart-drive-manager/source/data_structures/BPlusTree.h:276-297 | one node of the search: a hit exactly in a leaf whose key at the scan position is the key, with the value there; internal nodes always go to the child at the scan position |
| BPlusTree.FoundInLeaf | test_sdm/smart-drive-manager/source/data_structures/BPlusTree.h:276-297 | whatever the search returns is a value stored with the key in some leaf |
| BPlusTree.MedianLost | test_sdm/smart-drive-manager/source/data_structures/BPlusTree.h:184-235 | a split leaf's median, found before the split, is no longer found: it moves up without its value and the search goes left of it |
| BPlusTree.NamedMetadata | test_sdm/smart-drive-manager/source/data_structures/BPlusTree.h:300-304 | a new tree's metadata has the magic, the index name cut to its buffer and no root, leaves or entries |
| BPlusTree.NewRoot | test_sdm/smart-drive-manager/source/data_structures/BPlusTree.h:416-420 | the new root is internal, empty, one level above the old root and has the old root as its first child |
| BPlusTree.GrowRoot | test_sdm/smart-drive-manager/source/data_structures/BPlusTree.h:414-424 | the root split allocates a page at the end of the file for a one-key internal root over the old root |
| BPlusTree.InsertTree | test_sdm/smart-drive-manager/source/data_structures/BPlusTree.h:409-436 | an insertion counts one more entry modulo 2^64 and keeps the leftmost leaf |
| BPlusTree.InsertAllCounts | test_sdm/smart-drive-manager/source/data_structures/BPlusTree.h:409-436 | n insertions add n to the entry count modulo 2^64 |
| BPlusTree.InsertAllCountsOneMore | test_sdm/smart-drive-manager/source/data_structures/BPlusTree.h:433 | each insertion adds one to the entry count modulo 2^64 |
| BPlusTree.InsertAllNext | test_sdm/smart-drive-manager/source/data_structures/BPlusTree.h:409-436 | inserting one pair more is one more `insert` after the earlier ones |
| BPlusTree.RootLeafInsert | test_sdm/smart-drive-manager/source/data_structures/BPlusTree.h:409-436 | on a file whose only page is a root leaf with room, an insertion rewrites just that leaf and counts one more entry |
| BPlusTree.ScanOneLeaf | test_sdm/smart-drive-manager/source/data_structures/BPlusTree.h:443-463 | with a single leaf, `scan_all` lists that leaf's entries in slot order |
| BPlusTree.RootLeafShape | test_sdm/smart-drive-manager/source/data_structures/BPlusTree.h:409-436 | up to MAX_KEYS insertions into a new file keep a single root leaf holding one entry per insertion |
| BPlusTree.RootLeafGrows | test_sdm/smart-drive-manager/source/data_structures/BPlusTree.h:409-436 | an insertion into a sorted single root leaf with room keeps it sorted and adds exactly the new pair |
| BPlusTree.RootLeafFills | test_sdm/smart-drive-manager/source/data_structures/BPlusTree.h:409-436 | up to MAX_KEYS insertions into a new file give one sorted root leaf holding exactly the inserted pairs |
| BPlusTree.ScanListsInserted | test_sdm/smart-drive-manager/source/data_structures/BPlusTree.h:443-463 | after up to MAX_KEYS insertions into a new file, `scan_all` lists exactly the inserted pairs, in key order |
| BPlusTree.TwentiethInsertSplitsRoot | test_sdm/smart-drive-manager/source/data_structures/BPlusTree.h:409-436 | the insertion after MAX_KEYS moves the root to a new internal page one level up over two leaves holding MAX_KEYS entries together |
| BPlusTree.SplitRootInsert | test_sdm/smart-drive-manager/source/data_structures/BPlusTree.h:414-431 | inserting into a file whose only page is a full root leaf splits it under a new root and adds the key to one of the two leaves |
| BPlusTree.SplitFreshRoot | test_sdm/smart-drive-manager/source/data_structures/BPlusTree.h:414-428 | the root split of a one-page file gives a root at the second page over leaves at the first and third with MIN_KEYS keys each |
| BPlusTree.InsertUnderTwoLeaves | test_sdm/smart-drive-manager/source/data_structures/BPlusTree.h:237-274 | an insertion under a one-key root over two half-full leaves lands in one of the leaves and adds no page |
| BPlusTree.InsertedIntoRootLeafIsFound | test_sdm/smart-drive-manager/source/data_structures/BPlusTree.h:409-441 | a key inserted into a sorted root leaf with room that lacks it is then found with its value, and the leaf stays sorted |
| BPlusTree.FindKeyPosition | test_sdm/smart-drive-manager/source/data_structures/BPlusTree.h:174-182 | the loop computes the scan position |
| BPlusTree.ChildSlot | test_sdm/smart-drive-manager/source/data_structures/BPlusTree.h:255-259 | the loop computes the child index an insertion descends to |
| BPlusTree.LeafInsert | test_sdm/smart-drive-manager/source/data_structures/BPlusTree.h:240-253 | the shift loop produces the leaf with the entry inserted |
| BPlusTree.SplitNode | test_sdm/smart-drive-manager/source/data_structures/BPlusTree.h:190-220 | the copy loops produce the two halves of the split |
| BPlusTree.AddSeparator | test_sdm/smart-drive-manager/source/data_structures/BPlusTree.h:222-230 | the shift loop produces the parent with the separator inserted |
| BPlusTree.ShiftAbove | test_sdm/smart-drive-manager/source/data_structures/BPlusTree.h:222-226 | the loop moves the keys from the child index and the children after it one slot up, keeping the rest |
| BPlusTree.LeafPairs | test_sdm/smart-drive-manager/source/data_structures/BPlusTree.h:451-454 | the pairs loop lists the leaf's entries in slot order |
| BPlusTree.BPlusTree.constructor | test_sdm/smart-drive-manager/source/data_structures/BPlusTree.h:300-304 | a new tree over a closed file, with default metadata named by the index name |
| BPlusTree.BPlusTree.ReadNode | test_sdm/smart-drive-manager/source/data_structures/BPlusTree.h:148-155 | a read succeeds exactly for a non-zero page of an open file and returns it; a failed read leaves the caller's node |
| BPlusTree.BPlusTree.WriteNode | test_sdm/smart-drive-manager/source/data_structures/BPlusTree.h:157-163 | the write stores the page, succeeding exactly when the file is open |
| BPlusTree.BPlusTree.AllocateNode | test_sdm/smart-drive-manager/source/data_structures/BPlusTree.h:165-172 | the new page's offset is the end of the file, and the file grows by one empty page |
| BPlusTree.BPlusTree.SplitChild | test_sdm/smart-drive-manager/source/data_structures/BPlusTree.h:184-235 | the file and parent become those the split describes |
| BPlusTree.BPlusTree.InsertNonFull | test_sdm/smart-drive-manager/source/data_structures/BPlusTree.h:237-274 | the file becomes that of the insertion into a non-full node |
| BPlusTree.BPlusTree.SplitAndDescend | test_sdm/smart-drive-manager/source/data_structures/BPlusTree.h:264-272 | the file becomes that of splitting the full child and descending |
| BPlusTree.BPlusTree.ReadAndDescend | test_sdm/smart-drive-manager/source/data_structures/BPlusTree.h:261-272 | the file becomes that of reading the child and descending |
| BPlusTree.BPlusTree.Create | test_sdm/smart-drive-manager/source/data_structures/BPlusTree.h:310-358 | a created file holds the metadata with root and leftmost leaf at the first page and one empty root leaf; the stream is left open for output only, so node reads fail; a failure closes the stream and changes nothing else |
| BPlusTree.BPlusTree.Open | test_sdm/smart-drive-manager/source/data_structures/BPlusTree.h:360-397 | on a closed stream it reads the metadata of an existing file and succeeds exactly when the magic is right, leaving the stream open for both; an open stream is read in place, and on one opened for output only or failed the read fails, the metadata in memory decides, and the stream is left failed; a failure closes the stream |
| BPlusTree.BPlusTree.Close | test_sdm/smart-drive-manager/source/data_structures/BPlusTree.h:399-407 | the metadata is written back exactly when the stream is open for writing and has not failed; the stream is closed and the node pages are kept |
| BPlusTree.BPlusTree.Insert | test_sdm/smart-drive-manager/source/data_structures/BPlusTree.h:409-436 | the insertion always reports success and performs InsertTree; its first read fails a stream opened for output only |
| BPlusTree.BPlusTree.InsertFromRoot | test_sdm/smart-drive-manager/source/data_structures/BPlusTree.h:411-435 | from the read of the root on, the file and metadata become those InsertTree describes |
| BPlusTree.BPlusTree.InsertUnderNewRoot | test_sdm/smart-drive-manager/source/data_structures/BPlusTree.h:414-428 | below a full root read from the file, the file becomes that of growing the root and inserting from the new root, whose offset is returned |
| BPlusTree.BPlusTree.CountEntry | test_sdm/smart-drive-manager/source/data_structures/BPlusTree.h:423-434 | the metadata takes the new root offset and height and counts one more entry, and nothing else in it changes |
| BPlusTree.BPlusTree.SplitRoot | test_sdm/smart-drive-manager/source/data_structures/BPlusTree.h:414-426 | below a full root read from the file, the root is split under a new root at the end of the file, as GrowRoot says |
| BPlusTree.BPlusTree.Search | test_sdm/smart-drive-manager/source/data_structures/BPlusTree.h:438-441 | found exactly when Find finds the key, with its value, the caller's value kept on a miss; the read fails a stream opened for output only |
| BPlusTree.BPlusTree.SearchFrom | test_sdm/smart-drive-manager/source/data_structures/BPlusTree.h:276-297 | the recursive search from a node, as Find says |
| BPlusTree.BPlusTree.ScanAll | test_sdm/smart-drive-manager/source/data_structures/BPlusTree.h:443-463 | the pairs of the leaf chain from the leftmost leaf, as ScanFrom says; the read fails a stream opened for output only |
| BPlusTree.BPlusTree.ScanLeaves | test_sdm/smart-drive-manager/source/data_structures/BPlusTree.h:448-460 | the loop over the leaf chain collects the pairs ScanFrom gives |
| BPlusTree.FailedInsertKeepsFile | test_sdm/smart-drive-manager/source/data_structures/BPlusTree.h:148-172 | on a stream whose reads and writes fail, an insertion leaves the node pages as they were (also lines 409-436) |
| BPlusTree.FailedFindMisses | test_sdm/smart-drive-manager/source/data_structures/BPlusTree.h:276-297 | on a stream whose reads fail, every search misses (also lines 148-155) |
| BPlusTree.FailedScanEmpty | test_sdm/smart-drive-manager/source/data_structures/BPlusTree.h:443-463 | on a stream whose reads fail, the scan reads one empty leaf and returns no pairs (also lines 148-155) |
| Streams.AfterRead | test_sdm/smart-drive-manager/source/data_structures/BPlusTree.h:360-368 | a read from a stream opened for output only fails it, a failed stream stays failed, and a closed or read-write stream is left as it was |
| IndexManager.RangeWindow | test_sdm/smart-drive-manager/source/core/IndexManager.h:184-202 | the range bounds admit exactly the keys of the entity type and id whose timestamp lies between the two times |
| IndexManager.RangeReportsWindow | test_sdm/smart-drive-manager/source/core/IndexManager.h:184-202 | every entry the primary range query reports has the entity type and id asked for and a timestamp within the window |
| IndexManager.RecordOffsets | test_sdm/smart-drive-manager/source/core/IndexManager.h:196-199 | the offsets list has one record offset per result, in order |
| IndexManager.CollectOffsets | test_sdm/smart-drive-manager/source/core/IndexManager.h:196-199 | the loop collects the record offset of every result in order |
| IndexManager.EmailEntries | test_sdm/smart-drive-manager/source/core/IndexManager.h:287-295 | a driver rebuild inserts one e-mail key per driver, with the driver's id |
| IndexManager.UsernameEntries | test_sdm/smart-drive-manager/source/core/IndexManager.h:287-295 | a driver rebuild inserts one username key per driver, with the driver's id |
| IndexManager.PlateEntries | test_sdm/smart-drive-manager/source/core/IndexManager.h:297-304 | a vehicle rebuild inserts one plate key per vehicle, with the vehicle's id |
| IndexManager.EmailsCounted | test_sdm/smart-drive-manager/source/core/IndexManager.h:287-295 | a driver rebuild raises the e-mail count by the number of drivers, modulo 2^64 |
| IndexManager.PlatesCounted | test_sdm/smart-drive-manager/source/core/IndexManager.h:297-304 | a vehicle rebuild raises the plate count by the number of vehicles, modulo 2^64 |
| IndexManager.RebuildTwiceCountsTwice | test_sdm/smart-drive-manager/source/core/IndexManager.h:287-304 | a rebuild is not idempotent: rebuilding from the same records twice counts every entry twice |
| IndexManager.FirstInsertFound | test_sdm/smart-drive-manager/source/core/IndexManager.h:204-229 | on a newly created secondary index that was closed and opened again, the key stored for a text is found again by the search for that text, with its id |
| IndexManager.FirstInsertMissed | test_sdm/smart-drive-manager/source/core/IndexManager.h:46-100 | on a secondary index as `create_indexes` leaves it, the insertion leaves the file as `create` wrote it and the search for the same text misses (also lines 204-229) |
| IndexManager.CreatedPrimary | test_sdm/smart-drive-manager/source/core/IndexManager.h:46-56 | creating the primary tree succeeds exactly when its file can be created; the following `open` fails the stream and still succeeds, leaving the fresh file and metadata and an empty cache |
| IndexManager.ReopenedPrimary | test_sdm/smart-drive-manager/source/core/IndexManager.h:46-56 | with a `close` between `create` and `open`, the tree is open for both over the fresh file, and its cache agrees with it |
| IndexManager.OpenedPrimary | test_sdm/smart-drive-manager/source/core/IndexManager.h:102-140 | opening the primary tree succeeds exactly when its file exists with the right magic, exposing that file |
| IndexManager.CreatedSecondary | test_sdm/smart-drive-manager/source/core/IndexManager.h:58-70 | creating a secondary tree succeeds exactly when its file can be created; the following `open` fails the stream and still succeeds, leaving the named fresh metadata and a file whose node reads fail |
| IndexManager.ReopenedSecondary | test_sdm/smart-drive-manager/source/core/IndexManager.h:58-70 | with a `close` between `create` and `open`, the tree is open for both over the file `create` wrote, with the named fresh metadata |
| IndexManager.FirstStartSearchMisses | test_sdm/smart-drive-manager/source/core/IndexManager.h:58-70 | on a secondary tree `create_indexes` built, a key just inserted is not found by the search for it (also lines 204-229) |
| IndexManager.OpenedSecondary | test_sdm/smart-drive-manager/source/core/IndexManager.h:102-140 | opening a secondary tree succeeds exactly when its file exists with the right magic, exposing that file |
| IndexManager.InsertKey | test_sdm/smart-drive-manager/source/core/IndexManager.h:204-212 | an insertion into a present secondary tree stores the text's key with the id, and fails without a tree |
| IndexManager.SearchKey | test_sdm/smart-drive-manager/source/core/IndexManager.h:214-229 | a search returns the id stored with the text's key, or the caller's value on a miss or without a tree; its read fails a stream opened for output only, and nothing else changes |
| IndexManager.InsertNext | test_sdm/smart-drive-manager/source/core/IndexManager.h:287-304 | one turn of a rebuild loop extends the inserted prefix by one pair |
| IndexManager.InsertDrivers | test_sdm/smart-drive-manager/source/core/IndexManager.h:287-295 | the e-mail and username trees, when present, receive the drivers' keys in order |
| IndexManager.InsertVehicles | test_sdm/smart-drive-manager/source/core/IndexManager.h:297-304 | the plate tree, when present, receives the vehicles' keys in order |
| IndexManager.IndexManager.constructor | test_sdm/smart-drive-manager/source/core/IndexManager.h:38 | a new manager over the directory holds no trees |
| IndexManager.IndexManager.CreateIndexes | test_sdm/smart-drive-manager/source/core/IndexManager.h:46-100 | the four trees are created and opened in order, stopping at the first failure, and success means all four were created; each tree built is left on a failed stream over the file its `create` wrote |
| IndexManager.IndexManager.OpenIndexes | test_sdm/smart-drive-manager/source/core/IndexManager.h:102-140 | the four trees are opened in order, stopping at the first failure, and success means all four opened with the right magic |
| IndexManager.IndexManager.CloseAll | test_sdm/smart-drive-manager/source/core/IndexManager.h:142-152 | every present tree is closed, and writes its metadata back exactly when its stream is open for writing and has not failed |
| IndexManager.IndexManager.InsertPrimary | test_sdm/smart-drive-manager/source/core/IndexManager.h:154-164 | the insertion succeeds exactly when a primary tree with a root is present, and then counts one more record; while the tree's stream is open for both and its cache agrees with the file, it performs InsertTree |
| IndexManager.IndexManager.SearchPrimary | test_sdm/smart-drive-manager/source/core/IndexManager.h:166-182 | the file and metadata are unchanged; while the tree's stream is open for both and its cache agrees with the file, the record offset stored under the key with sequence 0, or the caller's value on a miss; the caller's value without a tree |
| IndexManager.IndexManager.RangeQueryPrimary | test_sdm/smart-drive-manager/source/core/IndexManager.h:184-202 | none without a tree; the file and metadata are unchanged; while the tree's stream is open for both and its cache agrees with the file, the record offsets of the range query between the two keys |
| IndexManager.IndexManager.InsertDriverEmail | test_sdm/smart-drive-manager/source/core/IndexManager.h:204-212 | the e-mail key goes into the e-mail tree, and success means the tree is present |
| IndexManager.IndexManager.SearchByEmail | test_sdm/smart-drive-manager/source/core/IndexManager.h:214-229 | the driver id stored under the e-mail, or the caller's value |
| IndexManager.IndexManager.InsertDriverUsername | test_sdm/smart-drive-manager/source/core/IndexManager.h:231-240 | the username key goes into the username tree, and success means the tree is present |
| IndexManager.IndexManager.SearchByUsername | test_sdm/smart-drive-manager/source/core/IndexManager.h:242-257 | the driver id stored under the username, or the caller's value |
| IndexManager.IndexManager.InsertVehiclePlate | test_sdm/smart-drive-manager/source/core/IndexManager.h:259-268 | the plate key goes into the plate tree, and success means the tree is present |
| IndexManager.IndexManager.SearchByPlate | test_sdm/smart-drive-manager/source/core/IndexManager.h:270-285 | the vehicle id stored under the plate, or the caller's value |
| IndexManager.IndexManager.RebuildDriverIndexes | test_sdm/smart-drive-manager/source/core/IndexManager.h:287-295 | every driver's e-mail and username go into their trees in order, and the rebuild always reports success |
| IndexManager.IndexManager.RebuildVehicleIndexes | test_sdm/smart-drive-manager/source/core/IndexManager.h:297-304 | every vehicle's plate goes into the plate tree in order, and the rebuild always reports success |
| Text.LeftEdge | test_sdm/smart-drive-manager/include/sdm_config.hpp:68 | `find_first_not_of` from a position: every character skipped is in the set and the one it stops at is not |
| Text.RightEdge | test_sdm/smart-drive-manager/include/sdm_config.hpp:69 | `find_last_not_of`: every character after the returned edge is in the set and the one before it is not |
| Text.Find | test_sdm/smart-drive-manager/include/sdm_config.hpp:62 | `find(char)` returns the first position holding the character, and reports none only when the character does not occur |
| Text.FindSubFrom | test_sdm/smart-drive-manager/source/server/RequestHandler.h:98 | `find(pattern)` returns the first position at or after the start where the pattern occurs, and none only when it occurs nowhere after it |
| Decimal.NatToStringValue | test_sdm/smart-drive-manager/source/server/RequestHandler.h:184 | `to_string` of a non-negative number prints digits whose decimal value is that number |
| Decimal.IntToStringValue | test_sdm/smart-drive-manager/source/server/RequestHandler.h:186 | `to_string` of any integer prints an optional minus sign followed by digits, and reading them back gives the number |
| Config.StoUL | test_sdm/smart-drive-manager/include/sdm_config.hpp:102-108 | `stoul` succeeds only on text that holds a numeral |
| Config.StoI | test_sdm/smart-drive-manager/include/sdm_config.hpp:111-114 | `stoi` only ever yields a value inside the 32-bit `int` range |
| Config.ReadPrinted | test_sdm/smart-drive-manager/include/sdm_config.hpp:102-114 | the numeral reader reads a printed non-negative number back exactly |
| Config.ReadPrintedNegative | test_sdm/smart-drive-manager/include/sdm_config.hpp:102-114 | the numeral reader reads a minus sign followed by a printed number back as that negative number |
| Base64.EmitSextets | test_sdm/smart-drive-manager/source/modules/websocket_bridge.cpp:47-53 | the characters appended for one group are the first `n` table characters of that group's four sextets |
| Base64.EncodeRemainder | test_sdm/smart-drive-manager/source/modules/websocket_bridge.cpp:58-73 | the zero-filled final group of one or two bytes appends exactly the encoding of those bytes, padding included |
| Base64.SextetsInAlphabet | test_sdm/smart-drive-manager/source/modules/websocket_bridge.cpp:29-32 | every six-bit value indexes a table character whose position in the alphabet is that value |
| Security.Cipher | test_sdm/smart-drive-manager/source/core/SecurityManager.h:81-91 | the repeating-key XOR keeps the length of its input |
| CacheManager.CacheManager.ClearRecordCaches | test_sdm/smart-drive-manager/source/core/CacheManager.h:245-247 | the driver, vehicle and trip caches are left empty |
| CacheManager.CacheManager.ClearLookupCaches | test_sdm/smart-drive-manager/source/core/CacheManager.h:248-249 | the session and query-result caches are left empty |
| Ints.Inc64Wraps | test_sdm/smart-drive-manager/source/core/CacheManager.h:63-68 | `++` on a 64-bit counter holding a wrapped count holds the wrapped count plus one |
| Ints.Add64Wraps | test_sdm/smart-drive-manager/source/data_structures/BTree.h:615 | n successive `++` on a 64-bit counter add n modulo 2^64 |

## Left out

- Console output (`cout` progress and error messages) is left out everywhere; it changes no state.
- Byte images of records, nodes and metadata are not modelled. Padding, reserved bytes, checksums, dirty flags and `parent_offset` are never read by the core, so each record or node is a value. Each table or index file is a map or array of those values.
- The index trees model the state of their stream: closed, open for both, open for output only (as `create` leaves it), or failed. A read from a stream open for output only fails it, and a failed stream ignores every later seek, read and write until it is closed. The other files (the record heaps, the linked list) model only open and closed: a read or write on an open stream of a complete file succeeds. A short or damaged file is not modelled.
- Filesystem operations are parameters:
  - whether a file exists and whether it can be created or opened;
  - the directory creation through `stat` and `system("mkdir -p …")`.
- Destructors that close files are not modelled.
- The wall clock, the random-number generator and SHA-256 are parameters. Password hashing is an abstract function, and each random draw of `generate_session_id` is an arbitrary choice.
- Floating-point values are not modelled:
  - record fields such as distances, fuel, money, coordinates, damage and payouts;
  - `total_distance` and the average speed.

  The hit rates, the load factors and the segment tree's speed extremes are exact rationals or reals, without rounding.
- Concurrency is not modelled:
  - mutexes and atomics;
  - the blocking `enqueue`/`dequeue` with their condition variables;
  - the lock-free queue in CircularQueue.h.

  Only the non-blocking ring-buffer operations are modelled.
- Out-of-range enum codes stored in raw bytes are not modelled. Every enum is a datatype, so the `default:` branch of `update_driver_safety_after_incident`, which deducts 50, cannot be reached.
- Networking, the camera, the user interface, the WebSocket framing other than `base64_encode`, and the domain managers that `RequestHandler` dispatches to are not part of this model. A routed request is reported as the handler it reaches, with its inputs.
- In the UDP receiver, `stod` and `stof` are parameters (whether each accepts a field), since floating point is not modelled; a packet carries latitude, longitude, value and readings as text. The `stoull` timestamps are converted.
- `clear_expired_sessions` only prints a message in the source, and is not modelled.
- Plain field reads are not separate members: the DoublyLinkedList getters, and HashTable `size`/`capacity`.
- The `Success` response takes its fields as entries in key order, the order in which a `std::map` iterates them.
- The B-tree and B+-tree descents and the B+-tree leaf-chain scan carry a fuel bound equal to the number of pages in the file. The source would loop forever on a file whose links form a cycle. The model stops instead.
- A B+-tree node's `child_offsets` and `values` share storage in a union in the source. The model keeps them as separate arrays: a leaf's children and an internal node's values are never read.
- In the source, a B+-tree `write_node` at offset 0 overwrites the metadata page. The model keeps node pages apart from the metadata page.
- B+-tree keys are the text up to the first NUL, at most 127 characters. Every comparison is `strcmp`, which stops at the first NUL.
- BTree.BTree.Insert: the result is tied to `InsertTree` only while the stream is open for both and the node cache agrees with the file. On a failed stream, or with a cache that holds a page the file does not, the method only keeps the class invariant and counts the record; the tree is then served from its cache alone.
- BTree.BTree.Search: tied to `Find` only while the stream is open for both and the cache agrees with the file, as for Insert.
- BTree.BTree.RangeQuery: tied to `Range` only while the stream is open for both and the cache agrees with the file.
- IndexManager.IndexManager.InsertPrimary: the file and metadata after the insertion are tied to `InsertTree` only while the primary tree's stream is open for both and its cache agrees with the file. After `create_indexes` the stream is failed and the tree runs from its node cache alone, which only the insertion's success and the record count describe.
- IndexManager.IndexManager.SearchPrimary: the answer is tied to `Find` only while the primary tree's stream is open for both and its cache agrees with the file. After `create_indexes` the tree is searched in its node cache alone, and that answer is not described.
- IndexManager.IndexManager.RangeQueryPrimary: the offsets are tied to `Range` only while the primary tree's stream is open for both and its cache agrees with the file. After `create_indexes` the query runs in the node cache alone, and its offsets are not described.
- BTree.BTree.ReadNode and the other B-tree node operations require a stream that is not open for output only. The program reaches them only after `open` or `close` has followed `create`, and `open` on such a stream leaves it failed.
- BPlusTree.BPlusTree.ReadNode and the other B+-tree node operations (WriteNode, AllocateNode, SplitChild, InsertNonFull, SplitAndDescend, ReadAndDescend, SplitRoot, SearchFrom, ScanLeaves) require a stream that is not open for output only. They run only inside `insert`, `search` and `scan_all`, whose first read has already failed such a stream.
- BTree.Descend: a child that is still full after its split would overflow the fixed arrays in the source. The model stops the descent there, and only a node that lists itself as its own child can produce that case.
- BPlusTree.Descend: the same as BTree.Descend, for the B+-tree.
- DatabaseManager.DatabaseManager.Create: requires a closed manager. On an open manager, the source's `create` closes the stream but leaves `is_open_` set.
- DatabaseManager.DatabaseManager.Open: requires a closed manager. Reopening an open `fstream` fails in the source, and that stream state is not modelled.
- DatabaseManager.DatabaseManager.GetStats: `total_distance` sums doubles into a `uint64_t`, and is not computed.
- DoublyLinkedList.DoublyLinkedList.Create: requires a closed list, for the same reason as the record heap.
- DoublyLinkedList.DoublyLinkedList.Open: requires a closed list, for the same reason as the record heap.
- CircularQueue.CircularQueue.constructor: requires a positive capacity. With capacity 0, every index step of the source takes `% 0`.
- IncidentManager.IncidentManager.constructor: takes the first incident id as a parameter. The source leaves `next_incident_id_` uninitialised.
- The IndexManager count getters are plain functions with no contract of their own: each reads one tree's counter, or gives 0 without a tree. The counting properties are the lemmas `EmailsCounted`, `PlatesCounted` and `RebuildTwiceCountsTwice`.
- SegmentTree.SegmentTree.QueryRange: requires every day's statistics to lie in range: a maximum speed of at least 0 and a minimum speed of at most 999999. Real day statistics always do. For statistics outside that range, the default statistics the source combines them with would distort the extremes, and that case is not modelled. The same holds for QueryByTimestamp, MonthlyStats, QuarterlyStats and YearlyStats.
- SegmentTree.SegmentTree.QueryByTimestamp: requires in-range day statistics, as QueryRange does.
- SegmentTree.SegmentTree.MonthlyStats: requires in-range day statistics, as QueryRange does.
- SegmentTree.SegmentTree.QuarterlyStats: requires in-range day statistics, as QueryRange does.
- SegmentTree.SegmentTree.YearlyStats: requires in-range day statistics, as QueryRange does.
- HashTable.HashTable.constructor: requires a load factor times the initial capacity of at least 1, so that the table holds one entry before it grows. A smaller product, such as `HashTable(1, 0.75)`, is handled in the source by a rehash on the first insert, and is not modelled. Every caller uses the defaults 1024 and 0.75.
- Map.Map.constructor: the same load-factor requirement as the HashTable constructor.
- DatabaseManager.DatabaseManager.ReadDriver: on a miss the model returns None. In the source, the caller's record is left holding the last slot read.
- DatabaseManager.DatabaseManager.ReadVehicle: on a miss the model returns None, as ReadDriver does.
- DatabaseManager.DatabaseManager.ReadTrip: on a miss the model returns None, as ReadDriver does.
- Security.EncryptData: requires the key buffer to be a different array from the output buffer. The source has no such requirement. When they are the same buffer, the key bytes change while they are being read, and that case is not modelled.
- Record ids and 64-bit fields are `nat` values below 2^64. Arithmetic on them is exact unless the source's wrap-around is observable, as in the `++` counters, the `stoul` sign wrap and the 16-bit port.

## Findings

| source | as written | input that shows it | evidently intended | confidence | as-written member | corrected member |
|---|---|---|---|---|---|---|
| test_sdm/smart-drive-manager/source/core/CacheManager.h:205-206 | the hit rate divides by `hits + misses`, a `uint64_t` sum that wraps | 2^64 - 1 hits and 2 misses: the sum wraps to 1, and the rate is 2^64 - 1 | a rate between 0 and 1, hits over all accesses | not executed | CacheManager.HitRateAsWrittenOverflows | CacheManager.HitRate |
| test_sdm/smart-drive-manager/source/core/IndexManager.h:46-100 | `create_indexes` calls `open()` on each tree right after `create()`, which left the stream open for output only; the read in `open()` fails the stream, the magic already in memory passes, and `open()` returns true, so every later file read and write of the session fails: the B-tree then runs from its node cache alone, whose pages a read still serves and a write still updates, and every B+-tree node read gives an empty leaf | first start with no index files: create the indexes, insert an e-mail for a driver, then search for it: the search misses | `close()` before `open()`, so the tree is reopened for input and output and the search finds the key | not executed | IndexManager.FirstInsertMissed | IndexManager.FirstInsertFound |
