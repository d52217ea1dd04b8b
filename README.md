# FTSensor driver model

A Dafny model of the driver core of `ati_sensor`, the `FTSensor` class that talks to
an ATI Net F/T force/torque sensor. The model covers:

- the RDT (Raw Data Transfer) codec over the UDP data socket: the 8-byte command
  request and the 36-byte record that comes back;
- the streaming-mode state machine: the stored command and sample count, the start,
  stop and one-shot commands, the per-poll rule of `doComm`, and `init`, whose
  `initialized_` flag is AND-accumulated;
- the HTTP configuration requests on the TCP socket: `sendTCPrequest` with its
  bounded chunked receive loop and redirect check, `setRDTOutputRate`, and the
  `setGaugeBias` overloads with their query strings;
- the delimited-list tokenizer `getArrayFromString`;
- the RTnet branch of `getCalibrationData`: the `?index=N` suffix, the fetch, the
  NUL-terminated copy, and the rule that the counts per force and per torque are
  replaced only when both read back non-zero.

Files and modules:

- `rdt.dfy` (`Rdt`): fixed-width integers as newtypes over `int`, the big-endian
  fields, two's-complement reinterpretation, and the request and record codecs with
  round-trip lemmas in both directions.
- `transport.dfy` (`Transport`): a socket is an `Endpoint` value. It is a scripted
  peer that says whether `socket()` succeeds and what each `send` and `recv`
  returns, and it logs every payload sent and every `recv` call. The driver's two
  socket handles are fields holding such values.
- `text.dfy` (`Text`): decimal rendering (`std::stringstream << n`), `find` and
  `find_first_not_of`, the tokenizer, and `std::string(char*)`.
- `http.dfy` (`Http`): the GET request text, the receive loop as a function
  (`Drain`), the outcome of `sendTCPrequest` (`TcpExchange`), the rate and
  gauge-bias queries, and the calibration page name.
- `timeval.dfy` (`Timeout`): the split of `setTimeout`'s seconds into a `timeval`.
- `ft_sensor.dfy` (`Sensor`): the `FTSensor` class. Its fields are the driver's
  fields; `request_`, `response_`, `xml_c_` and `setbias_` are arrays, and each
  public operation is a method.
- `wrappers.dfy` (`Wrappers`): `Option`.

Notes on the code's behaviour:

- `init` combines its flag with `&=`, which does not short-circuit. So `getResponse`
  is called even after a failed start (`Sensor.FTSensor.StartAndPoll`).
- The calibration page is requested with `HTTP/1.1` (src/ft_sensor.cpp:356). The
  configuration requests use `HTTP/1.0` (src/ft_sensor.cpp:411).
- `startStreaming()` without an argument calls `start*Streaming()` with the default
  argument `sample_count` of the header, which is not part of this model. That
  default is a compile-time constant, not the stored sample count. The model gives
  it to the object as the constant `defaultStartCount`, fixed by the constructor.
  It is also the count that `startStreaming(count)` uses for a negative `count`.

The header `ati_sensor/ft_sensor.h` is not part of this model. The protocol constants
take the values of ATI's Net F/T RDT interface:

| constant | value |
|---|---|
| command header | 0x1234 |
| STOP | 0 |
| REALTIME | 2 |
| BUFFERED | 3 |
| MULTIUNIT | 4 |
| RESET_THRESHOLD_LATCH | 0x41 |
| SET_SOFWARE_BIAS | 0x42 |
| DEFAULT_PORT | 49152 |
| `ati::current_calibration` | -1 |

These values are those of ATI's published RDT interface; the header that defines them
in the driver is not part of this model.
`ati::default_ip` is a constructor parameter. The buffer `xml_c_` has
65536 + 4 characters, so every 4-byte chunk written below position 65536 fits.

## Model

| member | source | states |
|---|---|---|
| Rdt.ReadBeU16 | src/ft_sensor.cpp:544-545 | a 16-bit field written by htons reads back as the same value |
| Rdt.ReadBeU32 | src/ft_sensor.cpp:546 | a 32-bit field written by htonl reads back as the same value |
| Rdt.BeU16OfRead | src/ft_sensor.cpp:544-545 | re-encoding a 16-bit field read from a buffer gives exactly those two bytes |
| Rdt.BeU32OfRead | src/ft_sensor.cpp:556-558 | re-encoding a 32-bit word read from a buffer gives exactly those four bytes |
| Rdt.ReadU16At | src/ft_sensor.cpp:544-545 | a 16-bit field placed at any offset of a buffer is read back from that offset |
| Rdt.ReadU32At | src/ft_sensor.cpp:546 | a 32-bit field placed at any offset of a buffer is read back from that offset |
| Rdt.BeU16 | src/ft_sensor.cpp:544-545 | htons: a 16-bit field as two bytes, most significant first (read back by Rdt.ReadBeU16) |
| Rdt.BeU32 | src/ft_sensor.cpp:546 | htonl: a 32-bit field as four bytes, most significant first (read back by Rdt.ReadBeU32) |
| Rdt.ReadU16 | src/ft_sensor.cpp:544-545 | the 16-bit big-endian field at an offset; its contract is stated by Rdt.ReadBeU16 and Rdt.BeU16OfRead |
| Rdt.ReadU32 | src/ft_sensor.cpp:556-564 | ntohl of the word at an offset; its contract is stated by Rdt.ReadBeU32 and Rdt.BeU32OfRead |
| Rdt.DecodeResponse | src/ft_sensor.cpp:556-564 | the nine words by ntohl, the six counts cast to int32; its contract is stated by Rdt.DecodeResponseWords and the two round-trip lemmas |
| Rdt.ToInt32 | src/ft_sensor.cpp:559-564 | the static_cast to int32_t is negative exactly when the word's top bit is set |
| Rdt.ToInt32Congruent | src/ft_sensor.cpp:559-564 | the reinterpreted value is congruent to the word modulo 2^32 |
| Rdt.ToInt32Unique | src/ft_sensor.cpp:559-564 | every int32 congruent to the word modulo 2^32 is the reinterpretation, so the cast is two's complement |
| Rdt.FromInt32 | src/ft_sensor.cpp:559-564 | the word it gives for an int32 reinterprets back to that int32 |
| Rdt.FromToInt32 | src/ft_sensor.cpp:559-564 | reinterpretation loses nothing: word to int32 and back is the identity |
| Rdt.EncodeRequest | src/ft_sensor.cpp:542-548 | a request is always sizeof(request_), 8 bytes |
| Rdt.EncodeRequestFields | src/ft_sensor.cpp:544-546 | header at bytes 0-1, command at 2-3, sample count at 4-7, each most significant byte first |
| Rdt.DecodeEncodeRequest | src/ft_sensor.cpp:542-548 | decoding the 8 bytes of any request gives back its header, command and sample count |
| Rdt.EncodeDecodeRequest | src/ft_sensor.cpp:542-548 | every 8-byte buffer is the encoding of the request it decodes to |
| Rdt.WordsOfFromWords | src/ft_sensor.cpp:556-564 | building a record from nine words and taking its words back is the identity |
| Rdt.FromWordsOfWords | src/ft_sensor.cpp:556-564 | taking a record's nine words and building the record back is the identity |
| Rdt.Read32s | src/ft_sensor.cpp:556-564 | reading ntohl words over a buffer gives one word per 4 bytes |
| Rdt.Read32sAt | src/ft_sensor.cpp:556-564 | word k of that reading is the big-endian word at byte offset 4k |
| Rdt.Concat32At | src/ft_sensor.cpp:556-564 | word k of a word-by-word encoding sits at bytes 4k to 4k+4 |
| Rdt.Read32sOfConcat32 | src/ft_sensor.cpp:556-564 | reading the words back from their encoding gives the words |
| Rdt.Concat32OfRead32s | src/ft_sensor.cpp:556-564 | encoding the words read from a buffer gives back the buffer |
| Rdt.ReadU32Slice | src/ft_sensor.cpp:556 | reading a word looks only at its own four bytes |
| Rdt.DecodeResponseWords | src/ft_sensor.cpp:556-564 | decoded field k (rdt_sequence, ft_sequence, status, then Fx..Tz) is the big-endian word at offset 4k (0, 4, 8, 12+4j) |
| Rdt.EncodeResponse | src/ft_sensor.cpp:555-564 | an encoded record is RDT_RECORD_SIZE, 36 bytes |
| Rdt.EncodeResponseFields | src/ft_sensor.cpp:556-564 | field word k of an encoded record sits at bytes 4k to 4k+4 |
| Rdt.DecodeEncodeResponse | src/ft_sensor.cpp:556-564 | decoding the big-endian encoding of any record gives that record back, signed fields included |
| Rdt.EncodeDecodeResponse | src/ft_sensor.cpp:556-564 | every 36-byte buffer is the encoding of the record it decodes to |
| Rdt.AllOnesIsMinusOne | src/ft_sensor.cpp:559 | bytes FF FF FF FF in the Fx slot decode to Fx == -1 |
| Rdt.ZeroRecord | src/ft_sensor.cpp:559-564 | 36 zero bytes decode to all six force/torque counts 0 |
| Transport.Opened | src/ft_sensor.cpp:234-242 | opening makes the handle valid iff socket creation succeeds; the peer's script and the logs are unchanged |
| Transport.SendResult | src/ft_sensor.cpp:548 | send on an invalid handle returns -1; on a valid one, the peer's next reply |
| Transport.AfterSend | src/ft_sensor.cpp:548 | a send logs exactly its payload and uses up one reply on a valid handle; receives are untouched |
| Transport.RecvResult | src/ft_sensor.cpp:555 | recv returns -1 with nothing written, or a count between 0 and the maximum equal to the bytes written, which are the delivery's first bytes |
| Transport.AfterRecv | src/ft_sensor.cpp:555 | a recv is counted once and uses up one delivery on a valid handle; sends are untouched |
| Transport.Overwrite | src/ft_sensor.cpp:365 | writing bytes at a position changes exactly those positions of the buffer |
| Transport.OverwriteExtend | src/ft_sensor.cpp:363-369 | two chunks written one after the other equal their concatenation written at once |
| Text.DigitChar | src/ft_sensor.cpp:460 | a digit character, whose code minus '0' is the digit |
| Text.NatToDecimal | src/ft_sensor.cpp:460 | stream output of an unsigned number: non-empty digits, no leading zero except for 0 itself |
| Text.NatToDecimalValue | src/ft_sensor.cpp:460 | the digits read back as the number |
| Text.IntToDecimal | src/ft_sensor.cpp:523 | stream output of a signed number is never empty |
| Text.IntToDecimalRoundTrip | src/ft_sensor.cpp:523 | the rendered text of any int is a well-formed decimal that reads back as that int |
| Text.Find | src/ft_sensor.cpp:94 | std::string::find: a found position is at or after the start and holds the character |
| Text.FindIsFirst | src/ft_sensor.cpp:94 | find returns the first occurrence; npos means none from the start on |
| Text.FindFirstNotOf | src/ft_sensor.cpp:91 | find_first_not_of: a found position is at or after the start and holds another character |
| Text.FindFirstNotOfIsFirst | src/ft_sensor.cpp:91 | it returns the first such position; npos means only delimiters remain |
| Text.CString | src/ft_sensor.cpp:370 | xml_s_ = xml_c_ copies a prefix of the buffer |
| Text.CStringStops | src/ft_sensor.cpp:370 | the copy holds no NUL, and stops at the buffer's first NUL unless there is none |
| Text.CStringAt | src/ft_sensor.cpp:370 | a buffer whose first NUL is at n yields its first n characters |
| Text.TokenEnd | src/ft_sensor.cpp:94-95 | a token ends after its start, at the next delimiter or at the end of the string |
| Text.TokenEndClean | src/ft_sensor.cpp:94-95 | the token itself holds no delimiter |
| Text.TokensClean | src/ft_sensor.cpp:91-101 | every token visited is non-empty and free of the delimiter (so the "0.0" substitute never fires) |
| Text.SkipDelimiters | src/ft_sensor.cpp:91-101 | skipping a run of delimiters does not change the tokens still to come |
| Text.TokensShift | src/ft_sensor.cpp:91-101 | the tokens of p + q from the position i past the end of p are the tokens of q from i |
| Text.TokensShiftStep | src/ft_sensor.cpp:91-101 | one token of that shift: both strings agree where it starts and ends |
| Text.TokensFromAt | src/ft_sensor.cpp:91-101 | the first token runs from its start to its end, then the rest follow |
| Text.TokenEndShift | src/ft_sensor.cpp:94 | a token's end moves with the prefix |
| Text.FindShift | src/ft_sensor.cpp:94 | find in p + q from i past the end of p is find in q from i, moved by the length of p |
| Text.FindFirstNotOfShift | src/ft_sensor.cpp:91-101 | the same for find_first_not_of |
| Text.JoinCons | src/ft_sensor.cpp:89-104 | joining a list is its head, the delimiter, and the joined rest |
| Text.TokensOfJoin | src/ft_sensor.cpp:89-104 | tokenizing a delimiter-joined list of clean tokens gives the list back |
| Text.FindNone | src/ft_sensor.cpp:94 | with no occurrence from the start on, find returns npos |
| Text.FindAt | src/ft_sensor.cpp:94 | with the first occurrence at k, find returns k |
| Text.SkipOne | src/ft_sensor.cpp:101 | a delimiter at the start is skipped |
| Text.LeadingDelimiter | src/ft_sensor.cpp:91 | a leading delimiter does not change the tokens |
| Text.TokenValues | src/ft_sensor.cpp:93-103 | at most len values are stored: exactly len, or one for every token when there are fewer |
| Text.Filled | src/ft_sensor.cpp:99 | the array gets the values in its first slots, and later slots keep their old values |
| Text.GetArrayFromString | src/ft_sensor.cpp:89-104 | data becomes the converted first min(len, #tokens) tokens over its old contents; the result is true iff there were at least len tokens, that is iff exactly len slots were filled |
| Text.Converted | src/ft_sensor.cpp:98-99 | value i is the conversion of token i |
| Text.FilledStep | src/ft_sensor.cpp:99-100 | storing token idx's value in slot idx extends the filled prefix by one |
| Text.ConvertedAll | src/ft_sensor.cpp:93-103 | when the loop stops, the prefix filled is exactly the values of the first min(len, #tokens) tokens |
| Text.Advance | src/ft_sensor.cpp:94-101 | one loop turn: the token at start is the next token, and the rest follow from its end |
| Text.NextToken | src/ft_sensor.cpp:94-95 | at a non-delimiter, the next token runs to the next delimiter or the end |
| Text.TokensFrom | src/ft_sensor.cpp:91-101 | the tokens getArrayFromString's loop visits from a position: skip delimiters, take up to the next one; stated by Text.TokensClean, Text.TokensOfJoin and Text.Advance |
| Text.Tokens | src/ft_sensor.cpp:91-101 | the tokens from position 0 |
| Http.HttpGet | src/ft_sensor.cpp:411 | a GET request is 17 characters longer than its path, version and host |
| Http.HttpGetLayout | src/ft_sensor.cpp:411 | "GET ", the path, a space and the version come first; the request ends with the blank line |
| Http.HttpGetInjective | src/ft_sensor.cpp:411 | different paths never give the same request |
| Http.Drain | src/ft_sensor.cpp:424-432 | the loop stops by 65536; what it writes from pos stays inside the buffer; the final position is pos plus what was written, or one less after a -1; sends are untouched |
| Http.DrainTurn | src/ft_sensor.cpp:426-431 | one loop turn: recv a chunk at pos, add its count, and stop on a count <= 0 |
| Http.DrainAdvance | src/ft_sensor.cpp:426-431 | one turn keeps the loop's partial result in step with the whole loop's result, or ends it with that result |
| Http.Deliveries | src/ft_sensor.cpp:428 | one delivery per piece, in order |
| Http.DeliveriesDeliver | src/ft_sensor.cpp:428 | pieces of at most 4 bytes, then a close, are delivered one recv per piece |
| Http.DrainChunks | src/ft_sensor.cpp:424-432 | a reply in pieces of at most 4 bytes, then closed, is written whole; the loop stops right past it after one recv per piece plus one |
| Http.DrainDelivered | src/ft_sensor.cpp:424-432 | the same, by induction on the pieces |
| Http.DrainOneChunk | src/ft_sensor.cpp:428-431 | a chunk is written at pos, and the loop goes on right after it |
| Http.DrainEndOfStream | src/ft_sensor.cpp:430-431 | a 0-byte recv ends the loop without moving the position |
| Http.DrainFailsAtOnce | src/ft_sensor.cpp:428-431 | a failing first recv writes nothing and leaves the position at -1 |
| Http.AfterDrain | src/ft_sensor.cpp:428 | after the loop the buffer starts with the text received and keeps its old contents beyond it |
| Http.TcpExchange | src/ft_sensor.cpp:398-452 | the buffer keeps its size through the request |
| Http.TcpEmptyCommand | src/ft_sensor.cpp:400-404 | an empty command fails with nothing sent, received or written |
| Http.TcpSuccess | src/ft_sensor.cpp:398-452 | success iff the command is non-empty, the send did not fail, more than 4 bytes came back and the buffer starts with "HTTP/1.0 302 Found" |
| Http.TcpSendFails | src/ft_sensor.cpp:413-421 | a failed send fails the request with nothing received and the buffer untouched |
| Http.TcpSendsOneRequest | src/ft_sensor.cpp:411-413 | a non-empty command is sent as exactly one HTTP/1.0 GET |
| Http.TcpAcceptedByServer | src/ft_sensor.cpp:433-439 | a server that answers with the redirect line makes the request succeed |
| Http.TcpRejectedByServer | src/ft_sensor.cpp:440-444 | any other reply of at least 18 characters makes it fail |
| Http.PrefixOfPrefix | src/ft_sensor.cpp:436 | the strncmp of 18 characters looks only at the reply's first 18 characters |
| Http.RateCommand | src/ft_sensor.cpp:459-461 | the rate page is "/comm.cgi?comrdtrate=" followed by digits that read back as the rate |
| Http.ValidRate | src/ft_sensor.cpp:457 | the rate guard, 0 < rate <= 7000; used by Sensor.FTSensor.SetRDTOutputRate |
| Http.MinKey | src/ft_sensor.cpp:510 | the smallest key of the map: the one std::map visits first |
| Http.Entries | src/ft_sensor.cpp:510 | the map's entries, one per key, each with its key's value |
| Http.RemoveKey | src/ft_sensor.cpp:510 | removing a key leaves the other keys, one fewer |
| Http.EntriesHead | src/ft_sensor.cpp:510 | the first entry has the smallest key; the others follow in order |
| Http.MinKeyUnique | src/ft_sensor.cpp:510 | the least key is the one visited first |
| Http.EntryKeys | src/ft_sensor.cpp:510 | every key of the map is visited |
| Http.EntriesStep | src/ft_sensor.cpp:510 | taking the least key left appends its entry to those already visited |
| Http.AscendingCons | src/ft_sensor.cpp:510 | a key below all the later keys keeps the order ascending |
| Http.EntriesAscending | src/ft_sensor.cpp:510 | the entries are visited in strictly ascending key order, each key once |
| Http.EntriesCover | src/ft_sensor.cpp:510 | every entry of the map is visited |
| Http.EntriesSingleton | src/ft_sensor.cpp:482-484 | the map of one gauge has that entry only |
| Http.Param | src/ft_sensor.cpp:523 | a parameter starts with "setbias" |
| Http.ParamClean | src/ft_sensor.cpp:523 | a parameter never holds the separator "&" |
| Http.Params | src/ft_sensor.cpp:510-530 | one parameter per entry |
| Http.ParamsAt | src/ft_sensor.cpp:523 | parameter i is the parameter of entry i |
| Http.QueryIsJoin | src/ft_sensor.cpp:510-533 | the query is "?" and then the parameters joined by "&"; an empty map gives no query |
| Http.LaterParams | src/ft_sensor.cpp:519-522 | after the first parameter, each is preceded by "&" |
| Http.QueryStep | src/ft_sensor.cpp:514-523 | the first parameter gets "?" and the others "&" |
| Http.QueryHead | src/ft_sensor.cpp:514-523 | the query is the first separator, the first parameter, and the rest |
| Http.QuerySnoc | src/ft_sensor.cpp:514-523 | the query grows by one separator and one parameter per entry, as the loop writes it |
| Http.QuerySplits | src/ft_sensor.cpp:510-533 | the query starts with "?", and splitting the rest at "&" gives back the parameters in ascending key order |
| Http.Query | src/ft_sensor.cpp:510-533 | the query setGaugeBias builds; stated by Http.QueryIsJoin, Http.QuerySnoc and Http.QuerySplits |
| Http.BiasCommand | src/ft_sensor.cpp:506-533 | "/setting.cgi" followed by the query of the entries in ascending key order |
| Http.VectorMap | src/ft_sensor.cpp:494-500 | the vector overload's map holds element i under key i, and only those keys |
| Http.VectorPairs | src/ft_sensor.cpp:497-500 | pair i is key lo + i with element lo + i |
| Http.VectorEntriesFrom | src/ft_sensor.cpp:494-502 | the entries of the map from key lo on are the vector's elements from lo on, in order |
| Http.VectorEntries | src/ft_sensor.cpp:494-502 | the vector overload visits element i as key i, in order |
| Http.IndexSuffix | src/ft_sensor.cpp:291-299 | the suffix is empty exactly for the current-calibration sentinel |
| Http.IndexSuffixDecimal | src/ft_sensor.cpp:294-296 | any other index is asked for as "?index=" followed by decimal text that reads back as the index |
| Http.CalibrationPath | src/ft_sensor.cpp:353 | the page name is at least "/netftapi2.xml" |
| Http.CalibrationPathLayout | src/ft_sensor.cpp:353 | the page is "/netftapi2.xml" followed by the index suffix |
| Http.CalibrationPathInjective | src/ft_sensor.cpp:291-299 | different calibration indices ask for different pages |
| Http.CalibrationFetch | src/ft_sensor.cpp:356-369 | the fetch keeps the buffer's size and sends exactly one HTTP/1.1 GET of the calibration page |
| Http.CalibrationPageReceived | src/ft_sensor.cpp:356-370 | a page delivered in pieces, then closed, with no NUL and a NUL just past it in the buffer, is exactly what xml_s_ holds; the send's result does not matter |
| Timeout.SplitAsWritten | src/ft_sensor.cpp:607-608 | setTimeout's split as written is never negative |
| Timeout.HalfSecondAsWritten | src/ft_sensor.cpp:607-608 | as written, 0.5 s becomes {0, 0} |
| Timeout.SubSecondAsWritten | src/ft_sensor.cpp:607-608 | as written, every timeout below one second becomes {0, 0} |
| Timeout.Split | src/ft_sensor.cpp:607-608 | corrected: whole seconds, and microseconds in 0..999999 |
| Timeout.SplitIsTruncation | src/ft_sensor.cpp:607-608 | corrected: the timeval is at most sec and less than a microsecond below it |
| Timeout.SplitKeepsTimeout | src/ft_sensor.cpp:607-608 | corrected: a timeout of at least a microsecond never becomes {0, 0} |
| Timeout.SplitWholeSeconds | src/ft_sensor.cpp:607-608 | corrected: whole seconds come out unchanged |
| Sensor.Command | src/ft_sensor.cpp:542-546 | the request_ bytes of a command are 8 bytes |
| Sensor.PollCalls | src/ft_sensor.cpp:574-583 | an uninitialized poll touches nothing; an initialized one receives exactly once and sends the command exactly when the sample count is not 0 |
| Sensor.Poll | src/ft_sensor.cpp:574-583 | the data endpoint after doComm; stated by Sensor.PollCalls |
| Sensor.PollSend | src/ft_sensor.cpp:577-579 | the send of doComm, skipped when the sample count is 0 |
| Sensor.BiasQuery | src/ft_sensor.cpp:506-530 | true iff every key is below 6; the query is then the entries' parameters in ascending key order, "?" before the first and "&" before the others |
| Sensor.LeastKey | src/ft_sensor.cpp:510 | the key std::map visits next is in the map and not above any key left |
| Sensor.BiasQueryStep | src/ft_sensor.cpp:514-523 | one loop turn: the least key left joins the visited entries, and the query grows by its separator and parameter |
| Sensor.FTSensor.constructor | src/ft_sensor.cpp:115-132 | not initialized, default address and port, STOP with one sample, the current calibration, 1000000 counts, rate 0, a 2 s timeout; the data handle invalid, the HTTP handle as the peer gives it (the constructor never sets it); the header's default start count kept as given |
| Sensor.FTSensor.SendCommand | src/ft_sensor.cpp:542-549 | request_ holds the header, the code and the stored sample count, big-endian; exactly those 8 bytes are sent; true iff send returned 8 |
| Sensor.FTSensor.SendCurrentCommand | src/ft_sensor.cpp:537-540 | sends the stored command with the stored sample count |
| Sensor.FTSensor.GetResponse | src/ft_sensor.cpp:551-572 | one recv of up to 36 bytes into response_; the record stored is the decoding of the whole buffer; true iff exactly 36 bytes arrived, in which case the buffer is what arrived |
| Sensor.FTSensor.RecvInto | src/ft_sensor.cpp:555 | the recv count and the bytes it wrote at the start of the buffer |
| Sensor.FTSensor.SetCommand | src/ft_sensor.cpp:668-671 | the stored command becomes the code |
| Sensor.FTSensor.SetSampleCount | src/ft_sensor.cpp:673-676 | the stored sample count becomes the count |
| Sensor.FTSensor.StartMode | src/ft_sensor.cpp:636-666 | stores the count and the mode, then sends them; true iff all 8 bytes went out |
| Sensor.FTSensor.StartRealTimeStreaming | src/ft_sensor.cpp:656-666 | REALTIME with the count is stored and sent; true iff the send was complete |
| Sensor.FTSensor.StartBufferedStreaming | src/ft_sensor.cpp:636-645 | BUFFERED with the count is stored and sent; true iff the send was complete |
| Sensor.FTSensor.StartMultiUnitStreaming | src/ft_sensor.cpp:646-655 | MULTIUNIT with the count is stored and sent; true iff the send was complete |
| Sensor.FTSensor.StartCurrentStreaming | src/ft_sensor.cpp:169-185 | a stored streaming mode is re-sent with the header's default count, which becomes the stored count; true iff the send was complete; any other stored command gives false with nothing sent or changed |
| Sensor.FTSensor.StartStreaming | src/ft_sensor.cpp:142-166 | the stored mode is re-sent with the header's default count for a negative count and with the count otherwise, and that count is stored; true iff the send was complete; a command that is not a streaming mode gives false with nothing sent or changed |
| Sensor.FTSensor.StopStreaming | src/ft_sensor.cpp:631-634 | sends STOP with the stored count; the stored mode and count are unchanged |
| Sensor.FTSensor.ResetThresholdLatch | src/ft_sensor.cpp:611-618 | sends RESET_THRESHOLD_LATCH; the stored mode and count are unchanged |
| Sensor.FTSensor.SetSoftwareBias | src/ft_sensor.cpp:619-630 | sends SET_SOFWARE_BIAS; the stored mode and count are unchanged |
| Sensor.FTSensor.SetBias | src/ft_sensor.cpp:586-590 | setSoftwareBias with its result dropped |
| Sensor.FTSensor.IsInitialized | src/ft_sensor.cpp:591-594 | the flag |
| Sensor.FTSensor.DoComm | src/ft_sensor.cpp:574-583 | nothing changes unless initialized; otherwise request_ holds the command with the stored count and is sent unless the count is 0, one recv of up to 36 bytes is written over the start of response_ with its count kept, and the record is the decoding of response_; the mode, the count and the flag never change |
| Sensor.FTSensor.OpenSockets | src/ft_sensor.cpp:234-242 | both handles are opened; true iff both are valid |
| Sensor.FTSensor.StartAndPoll | src/ft_sensor.cpp:210-219 | stop, set the mode, start (the header's default count for a negative count; the count stays 1 for a mode that is not a streaming mode) and getResponse, each whatever the one before returned; the received bytes are written over the start of response_, the record is its decoding and the receive count is kept; reports whether the start went out in full and whether a whole record came back |
| Sensor.FTSensor.StartSession | src/ft_sensor.cpp:210-225 | the flag is set iff the mode is a streaming mode, the start went out in full and a whole record came back; then the calibration page is fetched into xml_c_ and its copy parsed (rate, biases, and the counts when both read back non-zero); otherwise the HTTP socket, the buffer, the biases, the counts and the rate are untouched |
| Sensor.FTSensor.Launch | src/ft_sensor.cpp:210-219 | from the flag set and one sample: the stop, the start and the first recv, with the flag narrowed by each, leave Launched over the data socket and response_ as they were |
| Sensor.FTSensor.FinishSession | src/ft_sensor.cpp:223-224 | from a Launched state: getCalibrationData is called exactly when the flag is set, which gives SessionStarted over the HTTP socket, the buffer and the calibration state as they were |
| Sensor.FTSensor.StartCount | src/ft_sensor.cpp:142-150 | the count startStreaming(count) sends: the header's default for a negative count, otherwise the count |
| Sensor.FTSensor.InitSends | src/ft_sensor.cpp:210-214 | init sends STOP with one sample and then, for a streaming mode, the mode with StartCount |
| Sensor.FTSensor.Launched | src/ft_sensor.cpp:210-219 | the RDT state init leaves once both sockets opened: the mode and StartCount stored, InitSends then one recv whose count is kept, whose bytes are written over the start of response_ and whose buffer is decoded into the record, and the flag set iff the mode is a streaming mode, the start went out in full and a whole record came back |
| Sensor.FTSensor.SessionStarted | src/ft_sensor.cpp:210-225 | Launched from the opened data socket and the old response_, and the calibration fetched and parsed exactly when the flag is set; otherwise the HTTP socket, the buffer and the calibration state are the old ones |
| Sensor.FTSensor.CalibrateIf | src/ft_sensor.cpp:224-225 | with the flag set, the socket and the buffer are those of the calibration fetch and the parse of the copy is applied, its result ignored; without it the socket, the buffer, the biases, the counts and the rate are unchanged |
| Sensor.FTSensor.Init | src/ft_sensor.cpp:187-233 | resets to STOP with one sample; false with no socket touched for an empty address; false when a socket does not open; on both failures the buffer, the calibration state, the record, the receive count, request_ and response_ are unchanged; otherwise the session of SessionStarted from the opened sockets, the old buffer, the old response_ and the old calibration state, so the first record is the decoding of the received bytes written over the old response_; returns the flag |
| Sensor.FTSensor.Connect | src/ft_sensor.cpp:198-228 | after the reset: no socket touched for an empty address, false when a socket does not open, otherwise SessionStarted; on both failures the buffer, the calibration state and the exchange state are unchanged |
| Sensor.FTSensor.Exchange | src/ft_sensor.cpp:551-572 | the state an RDT exchange may change besides the socket: the record, the receive count, request_ and response_ |
| Sensor.FTSensor.StartSessionIf | src/ft_sensor.cpp:198-228 | the session is started only when the address was non-empty and both sockets opened; otherwise the flag is cleared and nothing else changes |
| Rdt.IsStreamingMode | src/ft_sensor.cpp:151-163 | the modes start*Streaming accepts: REALTIME, BUFFERED and MULTIUNIT; any other stored command is refused |
| Sensor.FTSensor.ReceiveReply | src/ft_sensor.cpp:424-432 | the receive loop leaves the socket, the buffer and the position that Drain describes |
| Sensor.FTSensor.ReceiveTurn | src/ft_sensor.cpp:426-431 | one turn of the receive loop: the loop goes on from the new position with the chunk appended to the text and written into xml_c_, or ends with the result Drain gives for the whole loop |
| Sensor.FTSensor.RecvChunkAt | src/ft_sensor.cpp:428 | one recv of 4 bytes at pos: the count, and the bytes written there |
| Sensor.FTSensor.WriteAt | src/ft_sensor.cpp:428 | recv's write into xml_c_ at pos, the rest of the buffer untouched |
| Sensor.FTSensor.SendTcpRequest | src/ft_sensor.cpp:398-452 | the result, the socket and the buffer are those of TcpExchange |
| Sensor.FTSensor.SetRDTOutputRate | src/ft_sensor.cpp:455-477 | a rate of 0 or above 7000 gives false with nothing sent and nothing changed; otherwise the rate page is requested, and the stored rate becomes the rate exactly when the request succeeds |
| Sensor.FTSensor.SetGaugeBias | src/ft_sensor.cpp:504-535 | any key of 6 or more gives false with nothing sent; otherwise the setting page with the query in ascending key order is requested |
| Sensor.FTSensor.SetGaugeBiasVector | src/ft_sensor.cpp:494-502 | element i goes under key i; more than 6 elements give false with nothing sent |
| Sensor.FTSensor.SetGaugeBiasOne | src/ft_sensor.cpp:480-485 | index 6 or more gives false with nothing sent; otherwise "/setting.cgi?setbias<index>=<bias>" is requested |
| Sensor.FTSensor.GetGaugeBias | src/ft_sensor.cpp:487-491 | a copy of the six stored gauge biases |
| Sensor.FTSensor.FetchCalibration | src/ft_sensor.cpp:353-369 | the socket and the buffer after the calibration GET and the receive loop are those of CalibrationFetch |
| Sensor.FTSensor.GetCalibrationData | src/ft_sensor.cpp:289-396 | fetches the page and parses its copy up to the first NUL |
| Sensor.FTSensor.ParseCalibration | src/ft_sensor.cpp:372-395 | the rate is always stored; the setbias list is stored over the old biases; the counts are replaced, and the result is true, only when both read back non-zero |
| Sensor.FTSensor.ParsedCalibration | src/ft_sensor.cpp:372-390 | Calibrated, and the result is true iff both counts read back non-zero |
| Sensor.FTSensor.Calibrated | src/ft_sensor.cpp:372-390 | the rate read from the page is stored, the biases are the setbias list over the old ones, and the counts are replaced only when both read back non-zero |
| Sensor.FTSensor.Calibration | src/ft_sensor.cpp:372-390 | the state the parse may change: the biases, the two counts and the rate |
| Sensor.FTSensor.SetTimeout | src/ft_sensor.cpp:596-609 | refused for sec <= 0 and once initialized; otherwise the timeout is sec split into whole seconds and microseconds (the corrected split) |

## Left out

- Socket plumbing (`openSocket`, `closeSocket`, `closeSockets`, `gethostbyname`, `connect`, `setsockopt`) is not modelled. Only "does socket creation succeed" and the scripted send/recv results are kept, because the rest is operating-system behaviour.
- The RTnet timeout ioctl and the `SO_RCVTIMEO` setting in `init` are left out, and so is the blocking they control. They are transport detail.
- The libxml branch of `getCalibrationData` (`xmlReadFile`, `findElementRecusive`, `getArrayFromXml` over a node tree) is left out, because it is a foreign library. The RTnet branch is modelled.
- `getStringInXml` and `getNumberInXml` are not modelled as string code. The element text is a function the object is given (`elementText`), because of the library-style `npos` arithmetic. Note that it passes `n_end` as a length.
- The `atof`/`atoi` conversions and the casts after them are functions the object is given (`toUnsigned`, `toInt`, the tokenizer's `toNumber`). Double precision and libc parsing are not modelled.
- Text.CString: for a buffer with no NUL the source reads past the array, which is undefined behaviour; the model returns the whole buffer.
- Sensor.FTSensor.SetTimeout: stores the corrected split of the Findings row, not the truncation of sec/1e6 that src/ft_sensor.cpp:608 writes; Timeout.SplitAsWritten is that truncation.
- Timeout.Split works on reals: float rounding of `sec` is not modelled.
- Console and `cerr` logging is left out; it has no effect on state.
- The destructor (its stop command, `closeSockets` and the `delete`/`new[]` mismatch) is left out, because it is memory and OS handling.
- The constructor leaves `xml_c_` uninitialized; the model starts it all NUL. Its real size `MAX_XML_SIZE` is in the header, which is not part of this model.
- Transport.RecvResult: a recv never writes more than the maximum it asks for. A buffer overrun by the peer is not modelled.
- Sensor.FTSensor.SetGaugeBiasVector: the key wrap of a `size_t` index into `unsigned int` beyond 2^32 elements is computed but not stated in the contract, beyond the "more than 6 elements" case.
- Sensor.FTSensor.GetCalibrationData: the `std::string` copy `xml_s_` is a local value, not a field. Only the parse result of that copy is stated.

## Findings

| source | as written | input that shows it | evidently intended | confidence | as-written member | corrected member |
|---|---|---|---|---|---|---|
| src/ft_sensor.cpp:607-608 | `tv_usec = sec / 1e6` truncated, so the fraction of a second is dropped and a sub-second timeout becomes {0, 0}, which SO_RCVTIMEO reads as "no timeout" | `setTimeout(0.5)` gives {0, 0} | `tv_usec` is the fractional part times 1e6 | not executed | Timeout.SubSecondAsWritten | Timeout.SplitKeepsTimeout |
