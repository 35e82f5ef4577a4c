# go-s2s in Dafny: the cooked-mode-v2 encoder, the S2S session and its helpers

go-s2s is a Go client for Splunk's Splunk-to-Splunk (S2S) protocol in its
"cooked mode v2" variant. No public standard describes this variant; its
layout is whatever this client's code writes. This project models the
client's core in Dafny and proves properties of that model.

- **Frame encoder** (`Encoder`, `FrameFacts`, `Decoder`). `EncodeEvent`
  turns an event map into one frame and appends it to a `bytes.Buffer`.
  The frame is laid out as follows:
  - a big-endian u32 `msgSize`;
  - a u32 `mapCount`;
  - one key/value block per field, with `source`, `sourcetype`, `host` and
    `index` renamed to their `MetaData` names and `_raw` held back;
  - the `_done` pair and the `_raw` pair;
  - a zero u32 and the `_raw` trailer string.

  The model covers every iteration order of the Go map. `Decoder` is a
  receiving side written for the proofs: it reads a frame back and
  partners the encoder in a round-trip theorem.
- **Session** (`Session`). The `S2S` object handles:
  - dialling, where a TLS certificate check comes first;
  - the 400-byte handshake: marker, host and port in fixed zero-padded
    fields;
  - `Copy`/`Send`, which count bytes and flush and redial past
    `bufferBytes`;
  - an idempotent `Close`;
  - `Add`, which looks up an endpoint by alias and encodes one event into
    the staging buffer.

  The network is an abstract sink, described under "Modelling choices".
- **String helpers** (`Util`, `GoStrings`):
  - `ParseDurationString` sums the `(\d+)([dhm])` matches of a string in
    nanoseconds.
  - `TimeStringToCron` splits on `h` and writes a cron line.
  - Go's `strings.Split` is defined once and shared by both.
- **Alias grouping** (`Config`). `parseYAML` groups the session
  configurations of every entry under each alias the entry lists. The
  configurations are values of a type parameter.

Modelling choices:
- **Strings.** A Go string is a Dafny `string` whose characters stand for
  bytes. `Octets` and `Chars` convert between the two, and round trips
  assume `IsByteString` (every character below 256). The encoder accepts
  any string: a character of 256 or above is written as its value modulo
  256, so only byte strings are guaranteed to read back unchanged.
- **uint32 arithmetic.** Go keeps `msgSize` in a `uint32`. The model adds
  it up unbounded and reduces it modulo 2^32 in `BeU32`, where it is
  written. uint32 addition is addition modulo 2^32, so the four bytes are
  the same.
- **int64 arithmetic.** `ParseDurationString` likewise sums exactly and
  wraps once at the end (`Wrap64`). This equals the step-by-step
  wrap-around of Go's int64 products and sums.
- **Map iteration order** is a parameter: `order`, any sequence that lists
  each key exactly once (`IsOrdering`). Reading a missing key gives `""`,
  as `line["_raw"]` does in Go.
- **The network** is an abstract sink:
  - Every successful dial adds a connection to `streams`; `streams[i]`
    holds the bytes that connection `i` has received.
  - The `bufio.Writer` is modelled as `writer`, the connection it writes
    to, and `pending`, the bytes it holds back.
  - A ghost `log` records everything written to each writer. `Valid()`
    states that wire bytes plus pending bytes equal the log for the
    current writer, and a prefix of it for every earlier one.
  - Each dial, flush and close outcome is a parameter. Each certificate
    check is the `certParses` predicate.
- **Panics.** A Go panic is the status `Panicked(msg)`: a nil
  writer/connection or an out-of-range index. `Failed(msg)` stands for a
  returned error and `Done` for a normal return.
- **The global `BUF`** is a `Buffer` object passed to `Add`, `Send` and
  `EncodeEvent`.

Where the code departs from what an S2S client is commonly expected to do,
the model follows the code:
- A redial after a threshold flush (`Copy`) sends no new handshake.
- That redial does not close the old connection.
- Its error is ignored.
- A closed session still accepts `Add`, `Send` and `Copy`.
- An unknown alias panics ("Endpoint not found") rather than returning an
  error. An empty endpoint list fails on an out-of-range index.
- A rendering error of the event is dropped, and `""` becomes `_raw`.
- `Connect` prints, and does not return, the errors of dialling and of
  the handshake. It writes the handshake to the previous writer when the
  dial fails. With no writer at all, this is a nil-pointer panic.
- A failed dial leaves no connection, so a later `Close` panics once its
  flush has succeeded.

## Model

| member | source | states |
|---|---|---|
| Wire.BeU32 | splunk_tcp/s2s/utils.go:19-20 | a uint32 written big-endian takes exactly four bytes |
| Wire.ReadBeU32OfBeU32 | splunk_tcp/s2s/utils.go:19-20 | reading the four bytes back gives the value modulo 2^32, and the value itself below 2^32 |
| Wire.CharsOfOctets | splunk_tcp/s2s/utils.go:21 | converting a byte string to `[]byte` loses nothing: it reads back as the same string |
| Wire.OctetsConcat | splunk_tcp/s2s/utils.go:44 | the bytes of a concatenation are the concatenated bytes |
| GoStrings.Split | splunk_tcp/s2s/s2s.go:118 | `strings.Split` on a separator always yields at least one piece |
| GoStrings.SplitCount | splunk_tcp/s2s/s2s.go:118-119 | the number of pieces is the number of separators plus one |
| GoStrings.SplitPiecesFree | splunk_tcp/s2s/s2s.go:118 | no piece contains the separator |
| GoStrings.JoinSplit | splunk_tcp/s2s/s2s.go:118 | joining the pieces with the separator gives back the string |
| GoStrings.SplitAround | splunk_tcp/util/utils.go:89 | `a + sep + b` with no separator in `a` or `b` splits into exactly `[a, b]` |
| GoStrings.SplitNone | splunk_tcp/util/utils.go:89 | a string without the separator is its only piece |
| GoStrings.TwoPieces | splunk_tcp/s2s/s2s.go:119-123 | two pieces means exactly one separator, and the string is the first piece, the separator, the second |
| Encoder.EncodeString | splunk_tcp/s2s/utils.go:17-24 | the encoding is 4 + len + 1 bytes and ends in NUL (its inverse is Decoder.ReadEncodeString) |
| Encoder.EncodeKeyValue | splunk_tcp/s2s/utils.go:26-31 | a key/value block is len(key) + len(value) + 10 bytes |
| Encoder.Remap | splunk_tcp/s2s/utils.go:42-65 | the renamed value always ends with the field's own value (only the prefix `source::`, `sourcetype::` or `host::` is added) |
| Encoder.RemapKeys | splunk_tcp/s2s/utils.go:42-65 | a field keeps its name and value exactly when it is not `source`, `sourcetype`, `host` or `index`; otherwise it gets one of the four metadata names |
| Encoder.Get | splunk_tcp/s2s/utils.go:68 | reading a key gives its value, and `""` when the event lacks it |
| Encoder.Body | splunk_tcp/s2s/utils.go:76-83 | what follows msgSize begins with mapCount, the number of field blocks plus 2 |
| Encoder.Frame | splunk_tcp/s2s/utils.go:75-83 | a frame is its 4-byte size field followed by exactly that many bytes of body |
| Encoder.Blocks | splunk_tcp/s2s/utils.go:39-65 | the `maps` slice has one block per collected pair |
| Encoder.MetaPairs | splunk_tcp/s2s/utils.go:41-66 | the loop yields at most one pair per visited key |
| Encoder.FlattenBlocksLength | splunk_tcp/s2s/utils.go:46-64 | the blocks written one after another take exactly the bytes msgSize counts for them |
| Encoder.BodyLength | splunk_tcp/s2s/utils.go:37-73 | msgSize (8, plus every block, the `_raw` pair, the trailer and the `_done` pair) is the length of everything written after it |
| Encoder.Buffer.constructor | splunk_tcp/s2s/utils.go:13-15 | a new `bytes.Buffer` is empty |
| Encoder.Buffer.Write | splunk_tcp/s2s/utils.go:75-83 | a write appends at the end and changes nothing before it |
| Encoder.Buffer.Drain | splunk_tcp/s2s/s2s.go:143 | `io.Copy` reads the whole buffer and leaves it empty |
| Encoder.EncodeField | splunk_tcp/s2s/utils.go:42-65 | each `switch` case yields the block of the remapped pair: `source`, `sourcetype` and `host` renamed and prefixed, `index` renamed, any other key verbatim |
| Encoder.CollectBlocks | splunk_tcp/s2s/utils.go:37-66 | after the loop, `maps` holds one block per visited key but `_raw`, in visiting order, and msgSize is 8 plus their sizes |
| Encoder.WriteBlocks | splunk_tcp/s2s/utils.go:77-79 | the blocks are appended in the order collected |
| Encoder.EncodeEvent | splunk_tcp/s2s/utils.go:33-86 | the buffer's old contents stay as a prefix, exactly one frame (size, mapCount, blocks, `_done`, `_raw`, zero, trailer) is appended, and the same buffer is returned |
| Encoder.InterfaceToString | splunk_tcp/s2s/utils.go:88-107 | a string comes back unchanged with no error; only a failing JSON marshal gives an error |
| FrameFacts.MetaPairsConcat | splunk_tcp/s2s/utils.go:41-66 | visiting keys `a` then `b` yields the pairs of `a` then those of `b` |
| FrameFacts.MetaPairsPermute | splunk_tcp/s2s/utils.go:41-66 | any two visiting orders of the same keys yield the same multiset of pairs and the same total size |
| FrameFacts.DistinctOnce | splunk_tcp/s2s/utils.go:41 | a range over a map visits every key exactly once |
| FrameFacts.OrderingsPermute | splunk_tcp/s2s/utils.go:41 | two iteration orders of one map are permutations of each other |
| FrameFacts.FrameOrderIndependent | splunk_tcp/s2s/utils.go:37-83 | whatever the map order, the frame carries the same pairs, the same mapCount and the same msgSize, so its first eight bytes are equal |
| FrameFacts.FrameHeader | splunk_tcp/s2s/utils.go:75-76 | a frame begins with the body length and then the number of blocks plus 2 |
| FrameFacts.BodyStart | splunk_tcp/s2s/utils.go:76 | the body begins with mapCount |
| FrameFacts.MetaPairsCount | splunk_tcp/s2s/utils.go:41-66 | without repeated keys, every key but `_raw` yields exactly one block |
| FrameFacts.MapCount | splunk_tcp/s2s/utils.go:41-76 | mapCount is the number of keys other than `_raw`, plus 2 |
| FrameFacts.MetaPairsMember | splunk_tcp/s2s/utils.go:41-66 | a pair is produced if and only if some visited key other than `_raw` remaps to it |
| FrameFacts.FieldPairs | splunk_tcp/s2s/utils.go:41-65 | the field pairs of a frame are exactly the remapped entries of the event, `_raw` excluded |
| FrameFacts.UnmapRemap | splunk_tcp/s2s/utils.go:42-65 | renaming is invertible for every field whose own name is not a metadata name |
| FrameFacts.MetaNameClash | splunk_tcp/s2s/utils.go:51-54 | a field named `MetaData:Host` with value `host::v` gives the same pair as `host` = `v` |
| Decoder.ReadString | splunk_tcp/s2s/utils.go:17-24 | reading a length-prefixed string consumes input |
| Decoder.ReadPairs | splunk_tcp/s2s/utils.go:77-79 | reading `count` blocks yields `count` pairs |
| Decoder.DecodeFrame | splunk_tcp/s2s/utils.go:75-83 | a frame is accepted only when its size field equals the bytes the body takes, and what is left is exactly the input after it |
| Decoder.ReadEncodeString | splunk_tcp/s2s/utils.go:17-24 | the string is recovered from its encoding, and whatever follows is left untouched |
| Decoder.ReadEncodePair | splunk_tcp/s2s/utils.go:26-31 | a key/value block reads back as the key and the value |
| Decoder.ReadPairsBlocks | splunk_tcp/s2s/utils.go:77-81 | the written blocks read back as the pairs, in order |
| Decoder.RemapBytes | splunk_tcp/s2s/utils.go:42-65 | renaming keeps keys and values byte strings |
| Decoder.MetaNamesBytes | splunk_tcp/s2s/utils.go:44-56 | the metadata names and prefixes are byte strings |
| Decoder.FrameBlocks | splunk_tcp/s2s/utils.go:77-81 | the field blocks, `_done` and `_raw` are the blocks of the frame's pair list, sizes included |
| Decoder.BodyShape | splunk_tcp/s2s/utils.go:75-83 | the body is mapCount, every block, then the zero u32 and the `_raw` trailer |
| Decoder.ReadTrailer | splunk_tcp/s2s/utils.go:82-83 | the tail reads as a zero u32 followed by the string `_raw` and nothing else |
| Decoder.DecodeFrameOfEncoded | splunk_tcp/s2s/utils.go:33-86 | for any event of byte strings whose body fits a uint32 and any map order, decoding the frame (and what follows it) gives back the field pairs, `_done`, `_raw`, and exactly the bytes that followed |
| Session.ServerNameOr | splunk_tcp/s2s/s2s.go:61-65 | an empty server name becomes `SplunkServerDefaultCert`; any other is kept |
| Session.Padded | splunk_tcp/s2s/s2s.go:125-127 | `copy` into a fixed array yields exactly the array's size, truncated or zero-filled |
| Session.Signature | splunk_tcp/s2s/s2s.go:124-131 | the handshake is exactly 400 bytes |
| Session.UnpadPadded | splunk_tcp/s2s/s2s.go:126-127 | a NUL-free string copied into a field reads back cut to the field's size |
| Session.ReadSignature | splunk_tcp/s2s/s2s.go:124-131 | the receiver recovers from the handshake the marker, the host (up to 256 bytes) and the port (up to 16) |
| Session.SignatureFields | splunk_tcp/s2s/s2s.go:129-131 | the handshake is the 128-byte marker field, the 256-byte host field, then the 16-byte port field |
| Session.ReadMarker | splunk_tcp/s2s/s2s.go:125 | the marker field reads back as `--splunk-cooked-mode-v2--` |
| Session.CopyPadded | splunk_tcp/s2s/s2s.go:125-127 | filling a zeroed array with `copy` gives the padded field |
| Session.BuildSignature | splunk_tcp/s2s/s2s.go:124-131 | the three arrays written in order are the handshake |
| Session.ServerParts | splunk_tcp/s2s/s2s.go:118-121 | the server splits into two parts if and only if it has exactly one colon, and then it is the host, a colon, the port |
| Session.ServerAddress | splunk_tcp/s2s/s2s.go:118-123 | the host and port exist exactly when there is one colon, rebuild the server, and contain no colon |
| Session.HostPort | splunk_tcp/s2s/s2s.go:118-123 | any colon-free host and port are read back from `host:port` |
| Session.FirstMatch | splunk_tcp/s2s/s2s.go:189-197 | the position found has the alias and no earlier endpoint has it; none found means no endpoint has it |
| Session.FindEndpoint | splunk_tcp/s2s/s2s.go:188-197 | the loop stops at the first match, reports "not found" only for a non-empty list without one, and leaves position 0 for an empty list |
| Session.EventData | splunk_tcp/s2s/s2s.go:198-202 | the event to encode has exactly the keys `_raw`, `index` and `sourcetype` |
| Session.Rendered | splunk_tcp/s2s/s2s.go:187 | a string event is used as `_raw` unchanged |
| Session.AddPairs | splunk_tcp/s2s/s2s.go:198-203 | in any map order, the frame of an added event carries the index and the prefixed sourcetype as its field pairs, so mapCount is 4 |
| Session.S2S.constructor | splunk_tcp/s2s/s2s.go:55-66 | the configuration is stored, the server name defaulted, nothing dialled or sent |
| Session.S2S.Dial | splunk_tcp/s2s/s2s.go:94-115 | an unparsable certificate under TLS fails before any dial; a successful dial opens a new empty connection; a failed one leaves none |
| Session.S2S.NewBuf | splunk_tcp/s2s/s2s.go:177-184 | success puts a new empty writer on the new connection; failure keeps the old writer and its pending bytes |
| Session.S2S.WriteOut | splunk_tcp/s2s/s2s.go:132 | writing to the writer appends to its pending bytes and to the record of what was written for its connection |
| Session.S2S.SendSig | splunk_tcp/s2s/s2s.go:117-134 | a server without exactly one colon is an error that writes nothing; otherwise the 400-byte handshake of its host and port is appended to the writer |
| Session.S2S.Connect | splunk_tcp/s2s/s2s.go:79-92 | the server name is defaulted; the call ends normally (and marks the session initialized) unless the handshake meets a nil writer; after a good dial the new writer on the new connection holds exactly the handshake; after a failed one the old writer and streams stay, the handshake is appended to the old writer, and the connection is gone (kept when the certificate was rejected); the counter, `closed` and the time are untouched |
| Session.S2S.Flush | splunk_tcp/s2s/s2s.go:151-154 | a successful flush moves the pending bytes onto the connection; a failed one changes nothing |
| Session.S2S.Copy | splunk_tcp/s2s/s2s.go:141-159 | everything in the reader reaches the writer and is counted; past `bufferBytes` (strictly), a successful flush delivers it to the old connection and a redial follows whose new connection starts empty (no handshake), with the count reset; a failed flush returns 0 and the error; with no writer, nothing changes and only a non-empty source or a due flush panics; `conn` is stated in every case |
| Session.S2S.Rotate | splunk_tcp/s2s/s2s.go:150-156 | the threshold step: a failed flush changes nothing; otherwise the pending bytes reach the old connection, and a good dial gives a new, empty connection and writer while a failed one keeps the old writer |
| Session.S2S.Send | splunk_tcp/s2s/s2s.go:136-139 | the send time is recorded and the staging buffer goes through `Copy`, case by case: its bytes are appended to the writer and counted, delivered to the old connection by a threshold flush followed by a redial without handshake, or kept pending on a failed flush |
| Session.S2S.Close | splunk_tcp/s2s/s2s.go:161-175 | once closed, a call does nothing; a failing flush returns its error and changes nothing, a failing close returns its error after the flush, and both leave the session open |
| Session.S2S.Add | splunk_tcp/s2s/s2s.go:186-205 | the first endpoint with the alias is used and exactly one frame of its index, sourcetype and the rendered event is appended; no match panics ("Endpoint not found", or out of range for an empty list) and appends nothing |
| Session.S2S.Start | splunk_tcp/s2s/s2s.go:68-77 | dial errors, a rejected certificate or a malformed server stop the construction with that error; otherwise the session is initialized with the handshake pending on its first connection |
| Session.NewS2STls | splunk_tcp/s2s/s2s.go:54-78 | a session is returned if and only if the certificate, the dial and the server form are all good, with the handshake pending and the server name defaulted |
| Session.NewS2S | splunk_tcp/s2s/s2s.go:50-52 | a session is returned if and only if the dial succeeds and the server has one colon; it is a plain TCP session with the default server name, initialized, with the handshake pending on its first connection; otherwise the dial error or the malformed-server error |
| Util.DigitRun | splunk_tcp/util/utils.go:62 | `\d+` takes the longest run of digits |
| Util.Matches | splunk_tcp/util/utils.go:62-63 | every match is a non-empty digit run and a unit `d`, `h` or `m` |
| Util.Atoi | splunk_tcp/util/utils.go:68-71 | a digit run converts if and only if its value fits an int64, and then to that value |
| Util.UnitNanos | splunk_tcp/util/utils.go:73-81 | `d` is 24 hours, `h` one hour and `m` one minute in nanoseconds; exactly these three units count |
| Util.Total | splunk_tcp/util/utils.go:66-82 | the exact sum is never negative and is at least what each match contributes |
| Util.Wrap64 | splunk_tcp/util/utils.go:76-80 | int64 wrap-around lands in range and leaves in-range values alone |
| Util.ParseDurationString | splunk_tcp/util/utils.go:60-85 | an error (with duration 0) if and only if some digit run overflows; otherwise the int64 sum over all matches of value × unit |
| Util.MatchRun | splunk_tcp/util/utils.go:62-63 | a digit run followed by a unit is a match, and matching resumes after the unit |
| Util.SkipRun | splunk_tcp/util/utils.go:62-63 | a digit run followed by another character is not a match |
| Util.RunOf | splunk_tcp/util/utils.go:62 | a digit run ends at the first non-digit |
| Util.MatchesConcat | splunk_tcp/util/utils.go:62-63 | the matches of two strings cut after a non-digit are the matches of each |
| Util.NoMatch | splunk_tcp/util/utils.go:62-63 | there are no matches if and only if no digit is directly followed by a unit |
| Util.NoDuration | splunk_tcp/util/utils.go:62-66 | input with no digit directly followed by a unit parses without error to a zero duration |
| Util.TotalConcat | splunk_tcp/util/utils.go:67-82 | the total over two lists of matches is the sum of their totals |
| Util.Repeated | splunk_tcp/util/utils.go:62-82 | a string repeated (ending in a non-digit) gives twice the total: repeated units accumulate |
| Util.RepeatedUnit | splunk_tcp/util/utils.go:62-82 | `1h1h` is two hours |
| Util.UnknownUnit | splunk_tcp/util/utils.go:62-63 | `5s` has no match |
| Util.TimeStringToCron | splunk_tcp/util/utils.go:87-101 | success if and only if the string contains exactly one `h` |
| Util.CronOf | splunk_tcp/util/utils.go:94-100 | `hour` + `h` + `minute` becomes `0 minute hour * * *`, unvalidated |
| Util.CronFields | splunk_tcp/util/utils.go:98 | the cron line has six space-separated fields: 0, the minute, the hour, then three stars |
| Config.Lookup | splunk_tcp/config.go:21 | reading an alias gives its list, and the empty (nil) list when it is absent |
| Config.ParseYAML | splunk_tcp/config.go:16-26 | never an error; every alias maps to the sessions of the entries listing it, in entry order; an alias is a key if and only if that list is non-empty |
| Config.AddEntry | splunk_tcp/config.go:19-23 | one entry appends its sessions once under each alias it lists, and changes nothing else |
| Config.AppendAll | splunk_tcp/config.go:20-22 | the sessions are appended in order under one alias, and no other alias changes |
| Config.CopiesLength | splunk_tcp/config.go:19-22 | an entry gives an alias (times listed) × (sessions) items |
| Config.GroupedLength | splunk_tcp/config.go:18-23 | an alias's list length is the sum over entries of (times listed) × (sessions) |
| Config.CopiesNonEmpty | splunk_tcp/config.go:19-22 | an entry gives an alias something if and only if it lists it and has a session |
| Config.GroupedNonEmpty | splunk_tcp/config.go:18-23 | an alias's list is non-empty if and only if some entry lists it and has a session |
| Config.GroupedConcat | splunk_tcp/config.go:18-23 | lists keep entry order: more entries only append |
| Config.CopiesConcat | splunk_tcp/config.go:19-22 | an alias listed twice gets the sessions twice, in order |

## Left out

- TCP and TLS dialling, the x509 pool and the TLS handshake are outcome parameters (`dialErr`, `flushErr`, `closeErr`) and the `certParses` predicate. The 2-second dial timeout is left out.
- `bufio.Writer` internals are left out: its own flush when its 4096-byte buffer fills, partial writes on a failed flush, and the sticky error that fails later writes. The model's writer holds back everything until `Flush`.
- `AutoPush` is left out: a goroutine that polls the clock and races with `Add` and `Send` on the staging buffer, `sent` and `lastSend`.
- `time.Now` is left out: `Send` takes the time as a parameter.
- `%v` formatting and `json.Marshal` in `InterfaceToString` are the `sprint` and `marshal` parameters, because they are foreign code with float formatting. The string case is modelled exactly.
- The YAML reading and writing helpers, the HTTP helpers `CheckMethod` and `CheckBody`, and the reflection-based `IsSlice` are left out.
- splunk_tcp/main.go is left out.
- `fmt.Println` logging is left out, including the size line `Add` prints and the errors `Connect` prints.
- Util.ParseDurationString: Go's regular-expression engine is not modelled. `Matches` defines the leftmost non-overlapping matches of `(\d+)([dhm])` directly, with `\d` as ASCII digits.
- Session.S2S.Copy: the reader is a `bytes.Buffer`, the only reader the core passes (the staging buffer, through `Send`); the errors of other readers and the `ReadFrom` path `io.Copy` takes for them, which panics on a nil writer even for an empty source, are not modelled.
- Session.S2S.Copy: a failing write into the writer (the `bufio` sticky error) is not modelled.
- Config.ParseYAML: the input is a Dafny value, so "configs are not modified" holds by construction and is not stated.
