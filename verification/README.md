# OracleBridge verified model

OracleBridge lets Oracle thin clients talk to PostgreSQL: it speaks TNS and TTC on one side and runs SQL
on the other. This project models the byte-level stack of that front end in Dafny and proves what it
keeps: the NUMBER, DATE, TIMESTAMP and INTERVAL codecs, the TTC primitives and response streams, the
cursor table of a session, the SQL and PL/SQL scanners, and the TNS transport.
`dafny verify dfyconfig.toml` checks all of it.

## How the model is laid out

| file | models |
|---|---|
| `Basics`, `PlaceValue`, `BigEndian`, `Text` | vocabulary: bytes, place value, fixed-width integers, string trimming |
| `Utf8` | text as code points, the strict UTF-8 encoder and decoder |
| `Numeral`, `Notation` | what a numeric text denotes, and the texts themselves: written numbers are read as the numbers they are, and nothing else is read |
| `NumberCodec`, `NumberOrder`, `NumberDecode`, `NumberLimits` | `encode_number` and `decode_number` of `types.py` |
| `Dates`, `Intervals` | the date, timestamp and interval codecs of `types.py`, the interval one with the double that `total_seconds()` goes through |
| `Wire`, `Buffer` | `buffer.py`: the primitives as byte strings, and the stateful reader and writer over them |
| `Messages`, `Responses`, `Params`, `Blocks`, `Greetings` | the response writers of `ttc.py`, the two handshake messages, and the client-side parsers that mirror them |
| `Locality` | those parsers read no further than they say |
| `Cursors` | the cursor table as a state machine, and its runs |
| `Columns` | `encode_column_value` and its fallback: which values have a cell, and what the others do to a cursor |
| `Execution` | the bodies of execute and authentication requests |
| `Client` | the requests as a client writes them, and what each comes to |
| `Requests`, `Session` | what a payload means (operations, reply, database connection), and the `Session` class that does it |
| `Replies`, `Sessions` | the client: what it awaits, what it hears in a reply, and what it has read of a cursor after a whole session |
| `Scanner`, `ScannerLaws`, `Occurrences`, `Tokens` | `split_statements`, `find_bind_names`, `replace_bind_placeholders` of `translate.py` |
| `Transport` | `tns.py` and `server.py`: packets, reassembly, chunking |
| `Stack` | what a whole connection says, and what its client hears |
| `Server` | the serving loop of `server.py`, with its session |
| `Samples` | values and messages with the bytes they have on the wire |

Code that updates state is modelled as classes and loops (`TTCReader`, `TTCWriter`, `Session`,
`CursorEntry`, `SocketReader`, `StreamWriter`, the scanners, the encoder), each proved equal to a
function of its inputs or old state; the theorems are about those functions. Responses are described as
lists of messages, messages as lists of primitive writes (`Field`), and every client-side parser is built
from the reads of `TTCReader`, so that one composition theorem (`Wire.FieldsReadBy`) carries all round
trips. The client's parser is chosen by the request alone (`Replies.Awaits`): the width the fetched cursor
was described with, the kinds of a block's binds, the number of RETURNING binds.

NUMBER values are compared exactly, as integers after scaling by a common power of ten: `Scaled(l, s)` is
the value of `l` times 10^s, for any `s` at which both sides are integers (`Fits`). The round trip is
stated at every scale from 170 on, where the decoded decimal is an integer too.

A cell of a row is its encoding, NULL included, or `Unencodable` when `_write_column_value` raises; such a
row raises while the reply is written. A text read from a request is kept as its UTF-8 bytes, which stand
for it and for no other text (`Utf8.EncodeDecode`, `Utf8.DecodeEncode`); bytes that are not UTF-8 raise.

No function is its own measure. What is read is compared with what was written independently of the reader:
numeric texts (`Notation`), SQL texts (`Tokens`), requests (`Client`), responses (the writers of `ttc.py`);
what the readers pass over and the constants are fixed by bytes (`Samples`).

The outside world is a parameter: the pieces in which the network delivers bytes, what a statement comes
to once translated and run (`Statement`) and whether it is a RETURNING statement, how authentication goes
(`Login`), what commit and rollback raise.

## What the proofs found

The following are results about the code. Where something holds on a condition, the theorem named is an
equivalence unless the item says otherwise, and a lemma at a concrete input follows it.

- A negative NUMBER of 20 or more base-100 pairs carries no terminator (`types.py:131`), although the
  docstring at `types.py:141-142` gives every negative one. Byte order equals numeric order for any two
  accepted texts if and only if neither is a negative of exactly 20 pairs that are a proper prefix of the
  other's, with the same exponent (`NumberOrder.OrderEmbedding`; `NumberLimits.OutOfOrder`).
- `decode_number(encode_number(t))` has the value of `t` if and only if `t` is zero, or has at most 28
  significant digits (the decimal context rounds the rest) and is not a positive number of decimal index
  -128 or -129, whose exponent byte is that of zero (`NumberDecode.RoundTrip`;
  `NumberLimits.TwentyNineDigits`, `NumberLimits.SmallestReadsAsZero`).
- An interval round-trips if and only if it is not negative and the double of its seconds is not rounded
  up to the next whole second, which never happens below 2^34 seconds (`Intervals.IntervalRoundTrip`,
  `Intervals.ExactBelow`; `Intervals.MinusOneDay`, `Intervals.CenturiesGainASecond`). Two non-negative
  intervals sort as their lengths if and only if neither is rounded up past the other
  (`Intervals.IntervalOrder`).
- A fetch or execute of a live cursor is answered with rows if and only if its id fits two bytes, an
  execute can describe its columns, and every value of the batch encodes; otherwise the reply is ORA-03113
  and the batch is gone (`Cursors.ReadAnswers`; `Cursors.TooManyCursors`, `Columns.DayIsLost`). A value
  has no encoding if and only if it is a stray (`Columns.CellExists`). Every value of a PostgreSQL DATE
  column is one: the driver returns it without a time of day, `pg.py:26` maps it to an Oracle DATE, and
  `types.py:172-176` asks for its hour (`Columns.DayHasNoCell`). So is a text with a surrogate, which JSON
  allows: the fallback at `ttc.py:811` encodes it again and fails again (`Columns.SurrogateHasNoCell`).
  Over a run, what was delivered and what is left
  are what was there if and only if no reply lost a batch (`Cursors.PagingConserves`); that is so in every
  run if and only if nothing is left, or id, columns and all remaining values can be written
  (`Cursors.ConservesAlways`).
- A PL/SQL response is read back if and only if a REF CURSOR was opened or no bind is a cursor, and the
  request stated as many binds as it described (`Blocks.BlockRoundTrip`; `Blocks.LoneCursorBind`,
  `Blocks.StatedBinds`). This is the one way in which an answer to a function request fails to say what the
  session means (`Replies.RequestAnswered`). It never costs a cursor its rows (`Sessions.SessionRows`).
- `README.md:33-35` of the repository promises an ERROR or STATUS message at the end of every response.
  That holds of every function request whose error can be written. It fails of the two handshake replies,
  and of a failing piggyback, which is not answered at all, because `ttc.py:95-96` lies outside the `try`
  of `handle_ttc`; text in it that is not UTF-8 suffices. A payload is answered if and only if its piggybacks can be read and the rest is empty,
  a handshake, or at least three bytes raising nothing too wide to write (`Requests.PayloadAnswered`;
  `Requests.UnknownPiggyback`, `Requests.UndecodableSchema`).
- After LOGOFF, and after a login whose database connection fails, the reply is the last: the server hangs
  up, and later requests get none (`Stack.LogOffIsLast`, `Stack.FailedLoginIsLast`).
- A PostgreSQL boolean goes out under a NUMBER column as the text `True`, which is no NUMBER
  (`Columns.BooleanIsNoNumber`).
- Bind substitution also rewrites text inside strings, comments and quoted identifiers, and digits after
  `::`, contrary to the comment at `translate.py:76-78`. The names reported agree with the placeholders
  inserted if and only if the text holds no such match (`ScannerLaws.ReportedAreReplaced`;
  `ScannerLaws.QuotedBindIsReplaced`).
- The statement splitter does not know quoted identifiers, the bind scanner does. On a text and on its
  statements, the scanner finds the same occurrences if and only if no place where a bind could start is
  masked in the one scan and not in the other (`Occurrences.ScannersAgreeExactly`;
  `ScannerLaws.QuotedSemicolon`). That is so of every text whose quoted identifiers hold no quote, dash,
  slash or semicolon (`ScannerLaws.ScannersAgree`). Names alone can agree by chance, one bind gained and an
  equal one lost (`ScannerLaws.QuotedByChance`).

## Model

| member | source | states |
|---|---|---|
| NumberCodec.ScanInteger | oraclebridge/types.py:56-68 | accepts exactly the integer parts made of digits, and keeps their digits without leading zeros |
| NumberCodec.ScanFraction | oraclebridge/types.py:70-83 | continues over the fraction: the digits of both parts without leading zeros, the decimal index moved down for each zero dropped in the fraction |
| NumberCodec.ScanMantissa | oraclebridge/types.py:56-83 | both loops together accept exactly the well-formed mantissas and end at the exponent |
| NumberCodec.ScanExponent | oraclebridge/types.py:85-95 | the exponent field, or its two error cases, shifts the decimal index |
| NumberCodec.ScanUnsigned | oraclebridge/types.py:56-99 | the three phases and trailing-zero removal yield the normal form of the literal the text denotes |
| NumberCodec.TrimTrailingZeros | oraclebridge/types.py:97-99 | the loop removes exactly the trailing zeros |
| NumberCodec.WritePairs | oraclebridge/types.py:121-130 | the pairing loop writes the exponent byte and one byte a pair of the aligned digits, complemented for negatives |
| NumberCodec.PackDigits | oraclebridge/types.py:100-133 | zero, range check, parity padding, exponent byte, pairs and terminator make the wire form of the normal number |
| NumberCodec.EncodeNumber | oraclebridge/types.py:32-133 | the encoder computes the wire form of the normal form of what the text denotes, or the same error |
| Numeral.NormalizeIsNormal | oraclebridge/types.py:56-101 | the digits kept neither start nor end with a zero |
| Numeral.NormalizeKeepsValue | oraclebridge/types.py:56-101 | dropping leading and trailing zeros keeps the value at every scale |
| Notation.ReadsShown | oraclebridge/types.py:45-95 | a written number, with blanks, signs, digits, fraction and power of ten, is read as the number it denotes |
| Notation.ShownValue | oraclebridge/types.py:45-95 | its value is its digits as one number, times ten to the power less the decimals, negated behind a minus sign |
| Notation.Accepted | oraclebridge/types.py:45-95 | the texts that are read as numbers are exactly the written ones |
| Samples.SmallNumbers | oraclebridge/types.py:32-41 | the bytes of 1, 10, 100, 0.001 and -1 |
| Samples.LargerNumber | oraclebridge/types.py:32-41 | the bytes of 123.45 |
| Samples.AcceptedNumbers | oraclebridge/types.py:100-104 | a number is accepted if and only if it is zero, or has at most 40 significant digits and a decimal index in -129..126 |
| PlaceValue.PairUpWorth | oraclebridge/types.py:116-130 | digits read in base ten and their pairs read in base one hundred are the same number |
| PlaceValue.WorthOrder | oraclebridge/types.py:97-133 | for digit lists without leading or trailing zeros, lexicographic order is numeric order |
| NumberOrder.PairsShape | oraclebridge/types.py:106-130 | an encoded number has 1 to 21 pairs in 0..99, the first and last of them not zero |
| NumberOrder.PairsWorth | oraclebridge/types.py:106-130 | alignment and pairing keep the value |
| NumberOrder.MagnitudeOrder | oraclebridge/types.py:97-133 | comparing exponents, then pairs, compares magnitudes |
| NumberOrder.ComplementOrder | oraclebridge/types.py:130-132 | complemented pairs compare in reverse, given a closing 102 on the shorter side |
| NumberOrder.NegativeOrder | oraclebridge/types.py:119-132 | byte order of two negatives, with the cut-short case exactly |
| NumberOrder.WireOrder | oraclebridge/types.py:103-133 | byte order is numeric order for nonzero numbers of any signs that are not cut short of each other |
| NumberOrder.CutShortOrder | oraclebridge/types.py:131-132 | a negative of 20 pairs that is a prefix of another really sorts the wrong way |
| NumberOrder.OrderEmbedding | oraclebridge/types.py:32-133 | for any two accepted texts, zero included, encodings compare as values if and only if neither is cut short of the other |
| NumberOrder.OrderExactWithinTwentyPairs | oraclebridge/types.py:97-133 | up to 20 pairs, or with a side not negative, byte order is numeric order |
| NumberOrder.Canonical | oraclebridge/types.py:97-133 | two texts have the same encoding if and only if they denote the same value |
| NumberOrder.SizeBound | oraclebridge/types.py:103-133 | encodings take 1 to 22 bytes, and 22 exactly for 40 digits at an odd decimal index |
| NumberLimits.OutOfOrder | oraclebridge/types.py:131-132 | minus 39 nines sorts before minus 39 nines point nine |
| NumberLimits.TwentyNineDigits | oraclebridge/types.py:163-166 | 29 nines are encoded exactly and read back with another value |
| NumberLimits.SmallestReadsAsZero | oraclebridge/types.py:118-146 | 1e-129 is accepted, positive, and decodes to zero |
| NumberDecode.UnpairPairUp | oraclebridge/types.py:163 | printing pairs as two digits undoes pairing |
| NumberDecode.DecodeWire | oraclebridge/types.py:136-166 | decoding the wire form gives the aligned digits and exponent, rounded, or zero when the exponent byte is 0x80 |
| NumberDecode.UnroundedValue | oraclebridge/types.py:163-164 | digit string and exponent denote exactly the encoded value, for all 40 digits |
| NumberDecode.RoundExact | oraclebridge/types.py:165 | rounding to 28 digits keeps the value if and only if only zeros are cut |
| NumberDecode.CutDigits | oraclebridge/types.py:163-165 | only zeros are cut if and only if there are at most 28 significant digits |
| NumberDecode.RoundTrip | oraclebridge/types.py:32-166 | encode then decode keeps the value of a text if and only if it is zero, or has at most 28 digits and is not read as zero |
| Dates.DateRoundTrip | oraclebridge/types.py:172-194 | every valid date and time of day comes back |
| Dates.TimestampRoundTrip | oraclebridge/types.py:179-202 | every timestamp comes back with its microseconds, with or without the time-zone bytes |
| Dates.DateOrder | oraclebridge/types.py:172-176 | DATE bytes of any two valid times sort in chronological order, counted in whole seconds since year 1 |
| Dates.TimestampOrder | oraclebridge/types.py:179-186 | TIMESTAMP bytes sort in chronological order, counted in microseconds |
| Samples.DateBytes | oraclebridge/types.py:172-186 | the bytes of a date and of its timestamps |
| Samples.NextDay | oraclebridge/types.py:172-186 | the days that dates are ordered by are counted one after the other, over the ends of months and years |
| Samples.Months | oraclebridge/types.py:172-186 | the lengths of the months in the calendar that dates are checked against, leap years included |
| Intervals.QuotientExact | oraclebridge/types.py:265 | `int(td.total_seconds())`, the integer part of the nearest double, is the whole seconds, and one more exactly when the double is rounded up to them |
| Intervals.ExactBelow | oraclebridge/types.py:265 | below 2^34 seconds nothing is rounded up |
| Intervals.IntervalDecoded | oraclebridge/types.py:208-274 | what any interval decodes to: its whole seconds as computed, without their sign, plus its microsecond field |
| Intervals.IntervalRoundTrip | oraclebridge/types.py:208-274 | any interval comes back if and only if it is not negative and its seconds are not rounded up |
| Intervals.IntervalOrder | oraclebridge/types.py:208-274 | bytes of non-negative intervals sort as their lengths if and only if neither is rounded up past, or level with, the other |
| Intervals.ExactWithinCenturies | oraclebridge/types.py:208-274 | non-negative intervals below 2^34 seconds come back and sort as their lengths |
| Intervals.CenturiesGainASecond | oraclebridge/types.py:265 | 198842 days and a microsecond short of another do not come back, and sort after 198843 days |
| Intervals.MinusOneDay | oraclebridge/types.py:208-274 | minus one day is read back as one day |
| Samples.IntervalBytes | oraclebridge/types.py:208-274 | the bytes of one day, one hour, one minute, one second and a half |
| Utf8.EncodeDecode | oraclebridge/buffer.py:140-146 | strict decoding undoes strict encoding, which fails on surrogates alone |
| Utf8.DecodeEncode | oraclebridge/buffer.py:140-146 | strict encoding undoes strict decoding: bytes that are UTF-8 stand for one text, in shortest form and without surrogates |
| Columns.CellExists | oraclebridge/types.py:233-275 | a value has a cell if and only if it is NULL or no stray: no date without a time of day in a date column, nothing but a time difference in an interval column, no object without bytes in a binary one, no surrogate where the printed text makes the cell |
| Columns.NumberCell | oraclebridge/types.py:240-241 | the cell of a number decodes to its value, on exactly the condition of the round trip |
| Columns.WrittenNumberCell | oraclebridge/types.py:240-241 | the same from the number as it is written: sign, digits and power of ten come back |
| Columns.MomentCell | oraclebridge/types.py:257-262 | a date with its time of day comes back from DATE, TIMESTAMP and TIMESTAMP WITH TIME ZONE cells |
| Columns.SpanCell | oraclebridge/types.py:263-274 | a time difference comes back from its cell if and only if it is not negative and not rounded up |
| Columns.CharacterCell | oraclebridge/types.py:242-249 | character cells hold bytes as they are, and anything else as the UTF-8 form of what it prints as |
| Columns.BinaryCell | oraclebridge/types.py:250-256 | binary cells hold bytes as they are, text in UTF-8, and what another object converts to |
| Columns.PrintedCells | oraclebridge/ttc.py:806-812 | what the encoder gives up on goes out as it prints, if that has a UTF-8 form |
| Columns.CellsFitTheirBuffers | oraclebridge/pg.py:36-45 | no encoded number, date, timestamp or interval is longer than the buffer size its column announces |
| Columns.BooleanIsNoNumber | oraclebridge/ttc.py:806-812 | a boolean under its NUMBER column becomes bytes that do not decode as a NUMBER |
| Columns.DayHasNoCell | oraclebridge/types.py:172-176 | a PostgreSQL DATE value has no cell, because it has no hour |
| Columns.SurrogateHasNoCell | oraclebridge/ttc.py:806-812 | a text of one surrogate in quotes has no cell in any character or binary column |
| Columns.DayIsLost | oraclebridge/ttc.py:657-678 | a cursor with one such row: the fetch fails, and the next one says that everything was delivered |
| Columns.NoStraysNothingLost | oraclebridge/ttc.py:630-678 | a cursor whose id and columns fit and whose values are no strays loses nothing in any run |
| Wire.VarintRead | oraclebridge/buffer.py:14-70 | any signed integer that fits the width is read back, up to any tail |
| Wire.SkipAgrees | oraclebridge/buffer.py:61-105 | skipping an integer ends where reading it does |
| Wire.ChunksRead | oraclebridge/buffer.py:121-128 | chunks of any total length are read back |
| Wire.BytesRead | oraclebridge/buffer.py:117-129 | byte strings of any length are read back, empty as NULL, up to any tail |
| Wire.TwoLengthsRead | oraclebridge/buffer.py:135-138 | strings behind two lengths are read back, empty and absent as NULL |
| Samples.LongString | oraclebridge/buffer.py:207-223 | longer byte strings are chunks of 32767 bytes, each behind its length, up to an empty one |
| Samples.IntegerBytes | oraclebridge/buffer.py:14-27 | a thousand, minus a thousand and zero as bytes |
| Wire.FieldsReadBy | oraclebridge/buffer.py:61-236 | any sequence of writes is read back by any suitable reads, limited or not, stopping exactly at any tail |
| Wire.FieldsRead | oraclebridge/buffer.py:61-236 | in particular by the reads of their own widths |
| Buffer.EncodeVarint | oraclebridge/buffer.py:14-27 | the encoder computes the wire form, and overflows exactly when the magnitude does not fit |
| Buffer.TTCReader.BytesLeft | oraclebridge/buffer.py:35-36 | how many bytes are left to read |
| Buffer.TTCReader.Raw | oraclebridge/buffer.py:38-44 | takes exactly the next n bytes, or raises and moves nothing |
| Buffer.TTCReader.Varint | oraclebridge/buffer.py:61-100 | value, rest and errors of the variable-length read, with or without a length limit |
| Buffer.TTCReader.SkipUb | oraclebridge/buffer.py:102-105 | skips exactly one variable-length integer |
| Buffer.TTCReader.Chunks | oraclebridge/buffer.py:121-128 | the chunk loop ends on every input and returns the concatenated chunks |
| Buffer.TTCReader.LengthPrefixedBytes | oraclebridge/buffer.py:117-129 | NULL, short and chunked forms, and every error, on arbitrary bytes |
| Buffer.TTCReader.BytesWithLength | oraclebridge/buffer.py:135-138 | the outer length decides between NULL and a byte string |
| Buffer.TTCReader.Str | oraclebridge/buffer.py:140-142 | a byte string that is UTF-8, NULL, or an error |
| Buffer.TTCReader.StrWithLength | oraclebridge/buffer.py:144-146 | the outer length decides between NULL and a text |
| Buffer.TTCWriter.UB | oraclebridge/buffer.py:182-201 | appends one integer field, or raises and writes nothing |
| Buffer.TTCWriter.SB1 | oraclebridge/buffer.py:203-204 | appends the value clamped to a signed byte |
| Buffer.TTCWriter.LengthPrefixed | oraclebridge/buffer.py:207-223 | appends a byte string in short or chunked form |
| Buffer.TTCWriter.ChunkLoop | oraclebridge/buffer.py:217-223 | the chunk loop writes chunks of 32767 bytes and the closing empty one |
| Buffer.TTCWriter.TwoLengths | oraclebridge/buffer.py:228-236 | appends a string behind two lengths; only its length can overflow |
| Buffer.TTCWriter.GetValue | oraclebridge/buffer.py:161-162 | the bytes are those of all fields written, in order |
| Messages.ReadResponse | README.md:33-35 | a response accepted by the client has exactly one ERROR or STATUS message, and it is the last |
| Messages.DescribeRead | oraclebridge/ttc.py:733-784 | a describe block is read back, precision and scale clamped to a signed byte |
| Messages.RowRead | oraclebridge/ttc.py:797-812 | a row of encoded values is read back, empty as NULL |
| Messages.ErrorRead | oraclebridge/ttc.py:683-713 | an error body is read back with number, text, position, cursor id, row count and call status |
| Messages.MessagesRead | oraclebridge/ttc.py:683-812 | any stream closed once is read back message by message, and reading stops exactly at any tail |
| Messages.ResponseRead | oraclebridge/ttc.py:683-812 | any stream closed once is read back message by message, consuming every byte |
| Responses.WriteErrorBody | oraclebridge/ttc.py:683-713 | writes the error body, or raises exactly when one of its numbers does not fit |
| Responses.WriteMetadata | oraclebridge/ttc.py:764-784 | writes one column description, or raises exactly when it does not fit |
| Responses.WriteDescribeInfo | oraclebridge/ttc.py:733-743 | writes totals, columns and trailer |
| Responses.WriteRowHeader | oraclebridge/ttc.py:786-795 | writes the row header message |
| Responses.WriteRows | oraclebridge/ttc.py:797-812 | writes one ROW_DATA message a row, or raises exactly when a value has no encoding |
| Responses.QueryResponse | oraclebridge/ttc.py:745-762 | the bytes of opening, description, rows and closing error of a query, or what it raises |
| Responses.CursorResponse | oraclebridge/ttc.py:642-678 | the bytes of a reply that serves a cursor, with or without its description, or what it raises |
| Responses.ErrorMessage | oraclebridge/ttc.py:715-723 | the bytes of an acknowledgement or error |
| Responses.StatusMessage | oraclebridge/ttc.py:725-731 | the bytes of a status reply |
| Samples.PlainMessages | oraclebridge/ttc.py:683-731 | the bytes of a status, an opening and an acknowledgement |
| Samples.RowHeaderBytes | oraclebridge/ttc.py:786-795 | the bytes of a row header |
| Samples.DescriptionBytes | oraclebridge/ttc.py:733-784 | the bytes of a description, but for what it describes |
| Samples.RowsLayout | oraclebridge/ttc.py:642-762 | which messages a response with rows has, and in which order |
| Samples.DescriptionHead | oraclebridge/ttc.py:733-743 | a description starts with the sum of the buffer sizes and the number of columns |
| Responses.QueryRoundTrip | oraclebridge/ttc.py:733-812 | a query response exists exactly when columns and id fit and every value encodes, and is then read back whole: columns, rows, cursor id, end code |
| Responses.CursorRoundTrip | oraclebridge/ttc.py:642-678 | the same for replies that serve a cursor, read at the width the cursor was described with |
| Responses.ErrorRoundTrip | oraclebridge/ttc.py:715-723 | acknowledgements and errors exist exactly when their numbers fit, and are read back |
| Params.ReadKvPairs | oraclebridge/ttc.py:184-192 | the key/value loop ends on every input and returns the dictionary or the error, text that is not UTF-8 included |
| Params.WriteParamMessage | oraclebridge/ttc.py:286-293 | writes count and pairs, or raises exactly when they do not fit |
| Params.PairsRead | oraclebridge/ttc.py:184-293 | written parameters are read back as a dictionary, the last value of a key winning |
| Params.AuthResponse | oraclebridge/ttc.py:222-284 | the bytes of the two authentication responses |
| Params.AuthRoundTrip | oraclebridge/ttc.py:222-284 | both are read back: the dictionary, then one closing message |
| Blocks.WriteSlot | oraclebridge/ttc.py:614-624 | one bind of a PL/SQL response: a REF CURSOR with its description and id, or a value |
| Blocks.BlockResponse | oraclebridge/ttc.py:602-627 | the bytes of a PL/SQL response, or what it raises |
| Blocks.BlockRoundTrip | oraclebridge/ttc.py:602-627 | a PL/SQL response is read back bind by bind if and only if a cursor was opened or no bind is a cursor, and as many binds were stated as described, whatever values the block assigns |
| Samples.BlockHeadBytes | oraclebridge/ttc.py:603-613 | the bytes of the head of a block response |
| Samples.LastOpened | oraclebridge/ttc.py:552-571 | the cursor a block sends back is the last it opened, on the rows of its last result |
| Blocks.LoneCursorBind | oraclebridge/ttc.py:614-624 | a lone cursor bind for which nothing was opened goes out and cannot be read |
| Blocks.StatedBinds | oraclebridge/ttc.py:605-607 | five binds stated and none described: the response cannot be read |
| Blocks.ReturningResponse | oraclebridge/ttc.py:515-534 | the bytes of a RETURNING response, or what it raises |
| Blocks.ReturningRoundTrip | oraclebridge/ttc.py:515-534 | a RETURNING response is read back: every bind's values, then the row count |
| Cursors.Slice | oraclebridge/ttc.py:638-665 | the host language's slice, negative ends included: a contiguous part starting at the position |
| Cursors.StepInv | oraclebridge/ttc.py:479-668 | every step keeps ids below the next one and positions within their rows |
| Cursors.FreshId | oraclebridge/ttc.py:479-569 | the id a paged query or REF CURSOR opens is never live |
| Cursors.StepFrame | oraclebridge/ttc.py:479-678 | a step leaves every cursor it does not name untouched and delivers nothing for it |
| Cursors.DeliverConserves | oraclebridge/ttc.py:637-677 | the batch taken and what remains are what was there; the reply carries the batch exactly when it can be written, and then 1403 comes exactly when nothing remains |
| Cursors.TakingConserves | oraclebridge/ttc.py:637-668 | over every run, with any other operations in between, the rows taken out of a cursor and those it still holds are its rows, in order |
| Cursors.DeliveredIsTaken | oraclebridge/ttc.py:637-678 | what a run delivers is what it takes if and only if no reply lost a batch |
| Cursors.PagingConserves | oraclebridge/ttc.py:637-678 | over every run, the batches delivered for a cursor and what it still holds are its rows, in order, if and only if no reply lost a batch |
| Cursors.ConservesAlways | oraclebridge/ttc.py:630-678 | a cursor loses nothing in any run if and only if nothing is left of it, or its id, columns and all remaining values can be written |
| Cursors.EndCodeExact | oraclebridge/ttc.py:651-677 | at any point of a run, a reply carries its batch if and only if that can be written, and says 1403 if and only if all the cursor's rows have now been taken |
| Cursors.QueryOpens | oraclebridge/ttc.py:473-484 | a query delivers its first batch if and only if that can be written, with 1403 when it is everything, else with a fresh cursor for exactly the rest |
| Cursors.QueryBatch | oraclebridge/ttc.py:473-484 | a query delivers all rows, or as many as asked for; a cursor is opened on the rest if and only if some are asked for and more are there |
| Cursors.BatchSize | oraclebridge/ttc.py:637-666 | how many rows a fetch or serve takes: all that are left, or as many as asked for, negative counts included |
| Cursors.QueryConserves | oraclebridge/ttc.py:473-677 | first batch, later batches and what the cursor still holds are the rows of a query, over every run, if and only if no reply lost a batch |
| Cursors.ClosedForever | oraclebridge/ttc.py:657-824 | an id that is gone never serves rows again in any run |
| Cursors.CloseIsFinal | oraclebridge/ttc.py:820-824 | CLOSE_CURSORS removes the ids it names for good |
| Cursors.RunAppend | oraclebridge/ttc.py:92-179 | runs compose, and so does what they deliver |
| Cursors.FetchProgress | oraclebridge/ttc.py:657-668 | n fetches of size k advance a cursor by n times k rows, or to its end |
| Cursors.FetchesToEnd | oraclebridge/ttc.py:657-678 | the n-th fetch of size k is answered if and only if its batch can be written, and then says 1403 if and only if n times k reaches the rows that were left; later ones carry no rows |
| Cursors.ReadAnswers | oraclebridge/ttc.py:630-692 | a fetch or serve answers with rows if and only if the cursor is live, its id fits two bytes, a served description fits and every value of the batch encodes; otherwise a live cursor's batch is lost |
| Cursors.TooManyCursors | oraclebridge/ttc.py:657-692 | the cursor with id 65536 cannot be fetched from, and loses its row |
| Greetings.GreetingRead | oraclebridge/ttc.py:122-151 | both handshake messages are read back, up to any tail |
| Execution.BindTypes | oraclebridge/ttc.py:298-318 | the bind descriptions end on every input and give the bind types, none for a negative count |
| Execution.BindValues | oraclebridge/ttc.py:321-342 | the bind values are read, a marker for a cursor, and each must decode for its type |
| Execution.ExecuteRequest | oraclebridge/ttc.py:352-411 | an execute request is read: options, cursor, statement, iterations, binds, and every error |
| Execution.LoginRequest | oraclebridge/ttc.py:184-206 | an authentication request is read: user and key/value pairs, and every error |
| Client.ExecuteRead | oraclebridge/ttc.py:352-411 | an execute request is read as it was written, field by field, up to any tail |
| Client.LoginRead | oraclebridge/ttc.py:184-206 | a login request is read as its user and the dictionary of its pairs, up to any tail |
| Client.ServeRequest | oraclebridge/ttc.py:412-417 | function 94 without a statement serves the cursor it names, so many rows at once |
| Client.QueryRequest | oraclebridge/ttc.py:458-484 | with a statement and option bit 5 or 6 it is a query, with the iterations of the request |
| Client.DefineRequest | oraclebridge/ttc.py:458-464 | with neither bit the statement is acknowledged and not run |
| Client.BlockRequest | oraclebridge/ttc.py:536-627 | a block opens its cursors in order and answers with its binds, of which those of type 102 are cursors |
| Client.ReturningRequest | oraclebridge/ttc.py:498-534 | a RETURNING statement is answered with the values of each bind described |
| Client.FailedRequest | oraclebridge/ttc.py:419-437 | transaction control is acknowledged, and a failing statement raises what it raises |
| Client.EmptyRequest | oraclebridge/ttc.py:412-418 | a request with neither statement nor cursor is refused, and one that cannot be read raises |
| Client.FetchRequest | oraclebridge/ttc.py:657-661 | function 5 fetches so many rows of a cursor |
| Client.CloseCarried | oraclebridge/ttc.py:815-824 | a piggyback of code 105 closes exactly the cursors it names, and the rest of the payload is what it would be without it |
| Client.ClosedByPayload | oraclebridge/ttc.py:815-824 | after such a payload none of them is live, and every other cursor is as it was |
| Client.SchemaCarried | oraclebridge/ttc.py:825-827 | code 152 passes over a schema name |
| Client.SettingsCarried | oraclebridge/ttc.py:828-832 | code 204 passes over session settings |
| Client.StateCarried | oraclebridge/ttc.py:833-834 | code 176 passes over a session state |
| Client.LoginRequest | oraclebridge/ttc.py:153-157 | functions 118 and 115 are the login phases: reply and database connection |
| Client.PingRequest | oraclebridge/ttc.py:170-171 | function 147 gets a status |
| Client.EndRequest | oraclebridge/ttc.py:162-169 | functions 14 and 15 are acknowledged without an opening, unless a live connection raises |
| Client.LogOffRequest | oraclebridge/ttc.py:172-176 | function 9 gets a status and closes a live connection, unless that raises |
| Client.ReexecuteRequest | oraclebridge/ttc.py:344-352 | functions 4 and 78 are refused once their four numbers are read |
| Client.OtherRequest | oraclebridge/ttc.py:177-179 | any other function is refused with ORA-00900 |
| Client.OtherMessage | oraclebridge/ttc.py:97-109 | an empty payload and a message of another type get a status and change nothing |
| Client.ErrorTold | oraclebridge/ttc.py:110-120 | an error is told with its number, text and position, anything else as ORA-03113 |
| Client.CountTold | oraclebridge/ttc.py:470-472 | a statement without a result set tells how many rows it touched |
| Client.ReturningTold | oraclebridge/ttc.py:514-534 | the values of a RETURNING statement are read, then its row count and whether a transaction is open |
| Requests.Piggyback | oraclebridge/ttc.py:815-837 | one piggyback takes at least one byte: the ids it closes and what follows it |
| Requests.PayloadSplits | oraclebridge/ttc.py:92-120 | a payload is its piggybacks, then one message: operations, reply and database connection |
| Requests.PayloadAnswered | oraclebridge/ttc.py:92-120 | a payload is answered if and only if its piggybacks can be read and the rest is empty, a handshake, or at least three bytes raising nothing too wide to write |
| Requests.UnknownPiggyback | oraclebridge/ttc.py:835-837 | a piggyback of code 99 is answered with nothing |
| Requests.UndecodableSchema | oraclebridge/ttc.py:826-828 | a schema name that is not UTF-8 drops the connection, and the ping behind it gets no answer |
| Replies.HeardClosesOnce | README.md:33-35 | whatever a client hears ends in its only ERROR or STATUS message |
| Replies.ErrorHeard | oraclebridge/ttc.py:110-120 | an error response is heard as that error, whatever answer to a request was awaited |
| Replies.BlockHeard | oraclebridge/ttc.py:602-627 | a block's binds are heard if and only if every cursor bind has a cursor and as many are stated as described, and never as rows |
| Replies.ReplyLocal | oraclebridge/ttc.py:92-120 | whatever a client hears in a reply on its own it hears in it in front of any other bytes, and stops where it ends |
| Replies.RequestAnswered | oraclebridge/ttc.py:110-179 | every function request is answered if and only if any error it raises can be written, and the client, parsing by its request alone, hears exactly what the session means if and only if the answer is clear |
| Replies.PayloadHeard | oraclebridge/ttc.py:92-120 | the reply to any payload, handshake and piggybacks included, is heard as meant if and only if it is clear, when there is one |
| Sessions.SessionHeard | oraclebridge/ttc.py:70-179 | over any number of payloads, until the server hangs up, each answer is heard as meant if and only if it is clear at the state its turn starts from, and the cursor table stays sound |
| Sessions.CursorTold | oraclebridge/ttc.py:630-678 | what the client reads is exactly the batch the cursor delivered, under its id, with 1403 exactly when nothing remains |
| Sessions.QueryTold | oraclebridge/ttc.py:473-484 | what the client reads is exactly the first batch, and 1403 or the id of the fresh cursor |
| Sessions.SessionRows | oraclebridge/ttc.py:92-678 | over any session, the rows a client reads for a cursor in the bytes it is sent are those the cursor machine delivers, unclear answers included |
| Sessions.SessionConserves | oraclebridge/ttc.py:92-678 | over any session, the rows read for a cursor and those it still holds are what it held, if and only if no reply lost a batch |
| Session.Session.Advance | oraclebridge/ttc.py:637-641 | moves one entry's position past the batch and changes no other |
| Session.Session.ServeCursorRows | oraclebridge/ttc.py:630-655 | new table and reply of an execute without text |
| Session.Session.FetchRows | oraclebridge/ttc.py:660-678 | new table and reply of a fetch |
| Session.Session.Fetch | oraclebridge/ttc.py:657-678 | the same, read from the request's bytes |
| Session.Session.OpenCursor | oraclebridge/ttc.py:479-481 | registers a result under an id that was not live, and moves the next id on |
| Session.Session.ExecuteSql | oraclebridge/ttc.py:458-484 | new table and reply of a statement's result |
| Session.Session.OpenRefs | oraclebridge/ttc.py:552-571 | opens the REF CURSORs of a block in order, the last id going back to the client |
| Session.Session.Execute | oraclebridge/ttc.py:412-437 | new table and reply of what an execute request comes to |
| Session.Session.ExecuteFull | oraclebridge/ttc.py:344-437 | reads an execute request and answers it: a known cursor when it has no statement, what the statement comes to otherwise |
| Session.Session.CloseCursors | oraclebridge/ttc.py:820-824 | removes exactly the ids that could be read |
| Session.Session.SkipPiggyback | oraclebridge/ttc.py:815-837 | one piggyback, its errors, and where it ends |
| Session.Session.SkipPiggybacks | oraclebridge/ttc.py:94-96 | the piggyback loop ends on every input and can only shrink the table |
| Session.Session.Login | oraclebridge/ttc.py:194-284 | an authentication phase: its request is read, its reply, and the database connection it makes or fails to make |
| Session.Session.LogOff | oraclebridge/ttc.py:172-176 | rolls back and closes the database connection, or raises and keeps it |
| Session.Session.Dispatch | oraclebridge/ttc.py:153-179 | new table, database connection and reply of every function code |
| Session.Session.Answer | oraclebridge/ttc.py:97-120 | the message after the piggybacks |
| Session.Session.HandleTtc | oraclebridge/ttc.py:92-120 | a payload takes the cursor table through a run of the state machine, moves the database connection, and gets the specified reply |
| Session.Report | oraclebridge/ttc.py:110-120 | an error becomes an error response, or drops the connection when it cannot be written |
| Scanner.CopyString | oraclebridge/translate.py:235-247 | copies a string literal whole, doubled quotes included |
| Scanner.CopyRegion | oraclebridge/translate.py:235-257 | copies a string or comment whole; a block comment may close itself as slash-star-slash |
| Scanner.SplitStatements | oraclebridge/translate.py:229-270 | the splitter computes the trimmed non-empty texts between semicolons outside strings and comments |
| Scanner.SkipRegion | oraclebridge/translate.py:28-49 | skips a string, comment or quoted identifier |
| Scanner.FindBindNames | oraclebridge/translate.py:19-64 | the bind scanner computes the bind names in order |
| ScannerLaws.StatementClosed | oraclebridge/translate.py:248-263 | a trimmed statement, even one that ends in a comment, is closed again by newline and semicolon |
| ScannerLaws.SplitStable | oraclebridge/translate.py:229-270 | rejoining the statements with newline and semicolon and splitting again gives the same statements, for every body |
| ScannerLaws.SplitLossless | oraclebridge/translate.py:229-270 | the statements keep, in order, every character that is not blank and not a separating semicolon |
| ScannerLaws.SplitAllWhole | oraclebridge/translate.py:258-269 | every statement is trimmed, not empty and has no separator left |
| ScannerLaws.NamesAcross | oraclebridge/translate.py:19-64 | the names of a text are those before its first separating semicolon and those after it |
| ScannerLaws.ScannersAgree | oraclebridge/translate.py:19-270 | on a text whose quoted identifiers hold no quote, dash, slash or semicolon, bind names of a body are those of its statements in order |
| ScannerLaws.QuotedSemicolon | oraclebridge/translate.py:19-270 | on `"a;:b"` they are not: no name before splitting, one after |
| ScannerLaws.QuotedByChance | oraclebridge/translate.py:19-270 | on `"a;:b":b` they are, but the name found is another bind |
| Occurrences.PlacesAreSites | oraclebridge/translate.py:19-64 | the bind scanner finds exactly the sites, local to their characters, that it does not mask, each once and in order |
| Occurrences.SplitPlacesAreSites | oraclebridge/translate.py:19-270 | so does scanning statement by statement |
| Occurrences.ScannersAgreeExactly | oraclebridge/translate.py:19-270 | both find the names at their places, and the same places if and only if they mask the same sites |
| ScannerLaws.SubstituteIdempotent | oraclebridge/translate.py:67-79 | substituting twice is substituting once, on every text |
| ScannerLaws.SubstitutionPieces | oraclebridge/translate.py:67-79 | substitution changes nothing but the matched binds, each of which becomes one placeholder |
| ScannerLaws.ExposedExactly | oraclebridge/translate.py:15-79 | the bind scanner finds at most what is substituted, and the same if and only if no match is masked and no double colon is followed by a digit |
| ScannerLaws.ReportedAreReplaced | oraclebridge/translate.py:67-79 | reported names and inserted placeholders agree if and only if the text is exposed |
| ScannerLaws.NoOpenersExposed | oraclebridge/translate.py:15-79 | texts without quotes, comment openers and double colons are exposed |
| Tokens.NamesOfTokens | oraclebridge/translate.py:19-64 | on SQL written token by token, the bind scanner finds exactly the binds, in capitals: the longest run of letters, digits, underscore, dollar and hash behind a colon that no word or colon precedes, or of digits |
| Tokens.SplitOfTokens | oraclebridge/translate.py:229-270 | the splitter finds exactly the statements between the separators that are tokens |
| Tokens.ReplacedTokens | oraclebridge/translate.py:67-79 | substitution turns exactly the binds into placeholders, if nothing inside literals, comments and quoted identifiers looks like one |
| ScannerLaws.QuotedBindIsReplaced | oraclebridge/translate.py:67-79 | a bind inside a string literal is replaced but not reported |
| Transport.BuildPacket | oraclebridge/tns.py:78-87 | a packet exists exactly when its length fits the header, and is header and payload long |
| Transport.PacketRead | oraclebridge/tns.py:52-87 | any packet built is read back, type, flags and payload, wherever it stands in a stream |
| Transport.DataPacketRead | oraclebridge/tns.py:72-93 | data and data flags come back from a DATA packet |
| Transport.SocketReader.ReadExact | oraclebridge/server.py:19-32 | the next n bytes however they were split up, or nothing at all and nothing lost |
| Transport.ReadPacket | oraclebridge/tns.py:52-75 | the first packet of the pending bytes, or how reading it fails, and the rest |
| Transport.Chunks | oraclebridge/server.py:123-126 | cuts a response into pieces of 8176 bytes |
| Transport.ChunkedWhole | oraclebridge/server.py:123-126 | the pieces concatenate to the response |
| Transport.Framed | oraclebridge/tns.py:90-93 | a piece becomes a packet of at most 8192 bytes |
| Transport.SendResponse | oraclebridge/server.py:105-107 | the send loop writes the framed pieces in order |
| Server.ConfirmMarker | oraclebridge/server.py:80-91 | a marker is answered by a reset packet, a reset also by its confirmation in one packet |
| Server.AnswerPayload | oraclebridge/server.py:98-109 | a payload takes the session one turn on and its reply is sent; says whether the connection goes on |
| Server.ServeLoop | oraclebridge/server.py:73-109 | the serving loop, over its session, writes what the pending bytes call for, over every segmentation |
| Server.HandleClient | oraclebridge/server.py:52-113 | what a connection writes depends on the client's bytes alone, not on how they arrive; to a client that opens with CONNECT it reads back as ACCEPT and the session's replies |
| Transport.ResponseArrives | oraclebridge/server.py:105-126 | a response of any length comes out of its packets byte for byte, in packets of at most 8192 bytes |
| Transport.ServePacked | oraclebridge/server.py:73-109 | whatever the client sends, everything written behind ACCEPT is whole packets of at most 8192 bytes, if the confirmation of a reset fits one |
| Transport.Transparent | oraclebridge/server.py:73-126 | the session is asked exactly the requests sent, and the client reads exactly the bytes answered |
| Transport.ConnectionTransparent | oraclebridge/server.py:57-126 | the same from the CONNECT and ACCEPT packets on |
| Transport.SendingsAnswered | oraclebridge/server.py:73-109 | requests, markers and other packets, in any order, are answered packet by packet: replies in pieces, a reset to a marker, a confirmation to a reset |
| Transport.AcceptTells | oraclebridge/tns.py:96-110 | what the ACCEPT packet says |
| Transport.ChunkSizes | oraclebridge/server.py:123-126 | the pieces of a response are 8176 bytes long, but for the last |
| Transport.ServePrefix | oraclebridge/server.py:73-113 | a connection that breaks off anywhere was sent a prefix of what the whole stream would be |
| Stack.ClientReadsReplies | oraclebridge/server.py:52-126 | end to end from the CONNECT packet on, the client reads the session's replies in order, byte for byte, up to the one after which the server hangs up |
| Stack.RepliesTaken | oraclebridge/ttc.py:92-120 | replies understood one by one are understood in one stretch of data, each read off exactly where it ends |
| Stack.ClientHearsReplies | oraclebridge/server.py:52-126 | reading that data reply by reply, the client hears what the session means for as long as the answers are clear, and stands at the next reply |
| Stack.ConnectionAnswered | oraclebridge/server.py:52-109 | a whole connection, CONNECT, requests, markers and the rest, is answered packet by packet as expected |
| Stack.CancelTells | oraclebridge/server.py:83-91 | the confirmation of a reset is one ERROR message with ORA-01013 |
| Stack.RepliesHeard | oraclebridge/ttc.py:92-179 | each answer of a connection is heard as the session means it if and only if it is clear |
| Stack.ServedPacked | oraclebridge/server.py:52-109 | whatever the client sends, all output is an ACCEPT packet and whole packets of at most 8192 bytes, the confirmation of a reset included |
| Stack.LogOffIsLast | oraclebridge/server.py:105-109 | the reply to LOGOFF of a live session is the last, whatever is sent after it |
| Stack.FailedLoginIsLast | oraclebridge/server.py:105-109 | so is the reply to a login whose database connection fails |

## Left out

- NumberCodec.EncodeNumber: starts from the text; the printing of floats, the 4300-digit limit of integer conversion, and digits and blanks outside ASCII are not modelled.
- Columns.CellExists: takes how a PostgreSQL value prints, and what `bytes` makes of an object that is neither text nor bytes, as part of the value.
- Replies.RequestAnswered: assumes that the driver returns rows as wide as their columns. Of the condition `Clear`, a login without parameters never occurs, since both phases send a fixed list.
- Session.Session.ExecuteFull: what a statement comes to, translated and run, and whether its text is that of a RETURNING statement, are parameters, as are the PL/SQL execution order and the values that go back through binds; values of binds are read and decoded, and passed on outside.
- Session.Session.Login: how authentication goes (`auth.py`) is a parameter; its request is read and the shape of its responses is kept.
- Session.Session.Dispatch: takes the same two outcomes as parameters.
- Session.Session.HandleTtc: takes the same two outcomes as parameters.
- Column names and error texts are byte strings: that the driver and the statement give them without surrogates is assumed.
- The error tables of `errors.py`, except the texts written directly in the modelled code.
- The textual rewrites of `translate.py` (row limits, outer joins, pre and post rules) and the PL/SQL block translator, which do not claim to preserve meaning.
- The asyncio machinery, logging and dumps; CONNECT payload parsing, which only feeds the log.
- Fixed-width reader and writer primitives (`u16be`, `u64be`, `u16le`), which only the handshake messages use; these are given as bytes.
