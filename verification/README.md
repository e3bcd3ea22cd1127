# A verified model of the Teradata driver's protocol core

This project models the parts of the driver whose correctness spans several
functions: the FastLoad data channel and transaction, the numeric and row
codecs, the message framing stack, the TD2 security envelope with its DER
records, and the builder of the statement-info tree. Everything is stated over
mathematical integers; the widths of the Go types are written out where they
matter. A Go call that can fail is a `Result`: `Ok`, `Err` for a returned error,
`Panic` for a run-time panic.

Files, by layer:

- `Bytes`, `Buffers`: octets, big-endian and two's complement integers; the
  cursor writer and the reusable write buffer.
- `Decimal`, `Number`, `DataTypes`, `NullBitmap`, `RowCodec`: printing, parsing,
  rounding and scaling decimals; the NUMBER format; type families; null
  indicators; parameters and result rows.
- `FastLoadEncode`, `FastLoadRow`, `FastLoadBatch`: column and row encoding, as a
  specification over octet sequences and as methods that overwrite one array.
- `FastLoadChannel`: the data channel as a step relation over producer, worker
  and cancellation events, with an invariant kept by every event. An event that
  would block, or panic on the closed channel, is not enabled.
- `FastLoadDataChannel`: the producer's methods. The worker goroutine may take
  any number of steps before every step of the producer, and the context may be
  cancelled at any point, so each contract covers every interleaving.
- `FastLoadDeal`, `FastLoadScript`, `FastLoadTx`: rows dealt over the channels; the
  scripts of statements a load follows; the connection and the transaction over
  sessions that may fail at any statement. A ghost log
  holds every statement handed to the control session, its outcome, and the data
  channels at that moment. `Drive` makes any sequence of calls on any of the
  transactions it was given, finished ones included.
- `ReadBuffer`, `ResponseParcels`, `ParcelWalk`, `Framing`, `Packet`: the read
  buffer over a schedule of partial reads and errors; what reading the contents of
  each response parcel does (it returns, panics or never ends); the loops over
  parcels; headers, frames and parcels as functions; writing and reading whole
  messages as methods on a connection object.
- `Der`, `Td2`, `Td2Options`: DER records (ITU-T X.690), the wrap envelope with
  AES-GCM as an ideal pair of functions, the offered protection options.
- `StatementInfo`: the stack loop, against the declarative meaning "nearest
  enclosing struct or array".

Where the code does less than one might expect, the property is stated around
it and a lemma says exactly when it holds:

- The scale of a decimal is a 64-bit integer, and both its computation from an
  exponent and its distance from the column's scale can overflow. A column then
  stores another value: 1 for "1e9223372036854775807" at scale 2
  (`FastLoadEncode.HugeExponentStoresOne`), 5 for "5e-9223372036854775808" in an
  integer column (`FastLoadEncode.TinyExponentStoresFive`). What is stored is right
  exactly when the value is zero or neither subtraction leaves 64 bits
  (`Decimal.RescaleRight`, `FastLoadEncode.DecimalStored`,
  `FastLoadEncode.IntegerStored`). The same wraps inside the NUMBER encoder are
  never seen (`Number.WrapsUnseen`).
- A parameter in a column of declared width zero, an integer or decimal too
  large for its column, and a date before year zero or past 32 bits do not come
  back as sent (`RowCodec.ValueRoundTripsExactly`, and `RowCodec.YearBeforeZero` and
  `RowCodec.WidthZero` for one input each); INTERVAL MINUTE TO SECOND is
  encoded but refused on the way back (`RowCodec.ShapesAgree`). A loaded date is
  its own day, and a loaded text has its own length before it, exactly when they
  fit their octets (`FastLoadEncode.DateStored`, `FastLoadEncode.PrefixedStored`).
- A message body of 2^32 octets or more is truncated by its own length field,
  in the clear and encrypted (`Framing.PlainRoundTrip`, `Framing.SecretRoundTrip`).
  A message is laid out exactly when no parcel fails or writes more than it
  declares (`Framing.LaidExactly`); an overlong parcel makes it panic exactly when
  the parcels before the first failing one outgrow the buffer (`Framing.LaidHow`).
- On the encrypted path a nil return says nothing about the send; only the mark
  on the connection does (`Packet.LanConnection.WriteLanMessage`). Of an encrypted
  message's header only the clear octets can be believed
  (`Framing.SecretRoundTrip`).
- The loop that reads a message's parcels never ends exactly when its own steps
  bring it to a parcel it can read that states length zero before the end of the
  window, or to one whose own contents never end (`ParcelWalk.ForeverExactly`).
  Only an authentication mechanism can be that, and exactly when its attribute loop
  comes to a readable attribute of length zero (`ResponseParcels.EndlessExactly`);
  `ParcelWalk.MechanismForever` is one in 21 octets. The loop that only looks for
  an error has its own condition (`ParcelWalk.CheckForeverExactly`).
- The sum of the declared column widths is an int: two columns can pass the size
  check by overflowing it (`FastLoadChannel.TwoHugeColumns`). The check is right
  exactly for sums that do not (`FastLoadChannel.CheckedRight`).
- Long-form DER lengths are accumulated in a 64-bit integer: parsing panics
  exactly when that integer, or the end of the content it announces, has become
  negative (`Der.PanicsExactly`). Seven length octets are always safe
  (`Der.ShortLengthsNeverPanic`), eight can panic (`Der.EightLengthOctetsPanic`).

## Model

| member | source | states |
|---|---|---|
| FastLoadChannel.StartInv | fastload_data_channel.go:75-102 | a started channel satisfies the whole invariant: two batches, each with one owner, both empty |
| FastLoadChannel.StepInv | fastload_data_channel.go:104-251 | every enabled producer, worker or cancellation event keeps ownership, batch shape, emptiness of free batches, the flow of batches and the split into rows |
| FastLoadChannel.RunInv | fastload_data_channel.go:75-263 | the invariant holds after every run, in every interleaving |
| FastLoadChannel.SentIsPrefix | fastload_data_channel.go:104-117 | the batches sent successfully are a prefix of those dispatched, in order, each once |
| FastLoadChannel.AcceptedOctets | fastload_data_channel.go:120-154 | the octets of all accepted rows are those of the dispatched batches followed by the batch in hand; nothing lost, doubled or reordered |
| FastLoadChannel.WaitMeansSent | fastload_data_channel.go:165-185 | with both batches in the producer's hands and no failure, everything dispatched was sent and the sent bodies and the batch in hand split into exactly the accepted rows |
| FastLoadChannel.NeverBlocks | fastload_data_channel.go:83-117 | a send on either bounded channel always finds room |
| FastLoadChannel.PushIsExclusive | fastload_data_channel.go:134-143 | a push never changes a batch that is pending or with the worker |
| FastLoadChannel.EmptyHasRoom | fastload_data_channel.go:129-133 | an empty batch has room for any row, so a push after a dispatch never runs past the body |
| FastLoadChannel.CheckedRight | fastload_data_channel.go:75-82 | with the sum of widths kept in an int the two size comparisons accept exactly what they should when and only when the sum does not overflow |
| FastLoadChannel.TwoHugeColumns | fastload_encode.go:57-63 | two columns that each declare 2^63-1 octets pass both comparisons |
| FastLoadChannel.NoDeadlock | fastload_data_channel.go:156-184 | a producer waiting on an empty free channel waits for a worker that can step |
| FastLoadChannel.WorkerSteps | fastload_data_channel.go:104-117 | until it is idle with nothing pending the worker can step, however its send ends, and its steps run out |
| FastLoadChannel.WorkerStepOnly | fastload_data_channel.go:104-117 | a worker step changes nothing the producer holds and never overwrites the first failure |
| FastLoadDataChannel.DataChannel.constructor | fastload_data_channel.go:75-102 | the started channel is the initial state of the step relation |
| FastLoadDataChannel.DataChannel.WorkerTurn | fastload_data_channel.go:104-117 | one worker step is a step of the relation, leaves the producer's view alone and has less work left |
| FastLoadDataChannel.DataChannel.Acquire | fastload_data_channel.go:156-163 | ends with an empty batch in hand, or with none, the cancellation returned and some failure set |
| FastLoadDataChannel.DataChannel.Dispatch | fastload_data_channel.go:147-154 | on success nothing accepted is left in hand; a row is never lost or added, and a failure already set stays the first |
| FastLoadDataChannel.DataChannel.PushRow | fastload_data_channel.go:120-145 | a row is accepted whole, framed with its number, or not at all; rejection means the row cannot be encoded; a set failure is returned unchanged |
| FastLoadDataChannel.DataChannel.Wait | fastload_data_channel.go:165-185 | nil means that every dispatched batch has been sent; otherwise a failure is set; accepted rows and the batch in hand are untouched |
| FastLoadDataChannel.DataChannel.Close | fastload_data_channel.go:243-263 | the worker has exited, nothing is pending, the connection is closed, and no row was accepted or dispatched meanwhile |
| FastLoadEncode.ColumnFits | fastload_encode.go:65-330 | every value and every null placeholder takes at most the column's declared maximum |
| FastLoadEncode.DecimalStored | fastload_encode.go:332-351 | a DECIMAL column refuses exactly the non-numeric and what, as computed, is too wide; what it stores is the value nearest to the input at its scale, within half a unit, when and only when no scale left 64 bits |
| FastLoadEncode.IntegerStored | fastload_encode.go:229-262 | an integer column refuses exactly what has no whole part or, as computed, one too large; what it stores is the whole part of the input when and only when no scale left 64 bits |
| FastLoadEncode.HugeExponentStoresOne | fastload_encode.go:504-520 | a text whose exponent is the largest int is stored as 1 in a DECIMAL column of scale 2 |
| FastLoadEncode.TinyExponentStoresFive | fastload_encode.go:511-520 | five with the least int for an exponent is stored as 5 in an INTEGER column, where its whole part is 0 |
| FastLoadEncode.DateStored | fastload_encode.go:448-466 | a DATE column refuses exactly what is neither a time, a date text nor an int64; an int64 is cut to 32 bits; a time or a date text is read back as its own day exactly when its date integer fits them |
| FastLoadEncode.PrefixedStored | fastload_encode.go:314-330 | VARCHAR and VARBYTE columns refuse exactly what has no text or octets, or too many; the octets read back after a length that is theirs exactly when it fits 16 bits |
| FastLoadEncode.TemporalStored | fastload_encode.go:353-396 | a temporal column stores text of exactly its width: the clock and the offset of the input, with the fraction cut or padded, and the input itself when it has that form |
| FastLoadEncode.NumberStored | fastload_encode.go:229-330 | a NUMBER column refuses exactly what is not numeric or whose scale, reduced to 40 digits, leaves 16 bits; its octets decode to a value that represents the number the input denotes |
| FastLoadEncode.StoredDecimalExact | fastload_encode.go:340-350 | the stored octets exist exactly when the value fits, and read back as it |
| FastLoadRow.ComputeMaxRowBytes | fastload_encode.go:57-63 | the accumulating loop yields the bitmap, the row number and the sum of the column maxima as an int, right exactly when the sum is one |
| FastLoadRow.FrameFits | fastload_data_channel.go:75-82 | a framed row is never longer than the parcel maximum computed at start |
| FastLoadRow.FrameLaws | fastload_encode.go:198-214 | an accepted row is a parcel of the right flavor that states its own length, marks exactly its null columns, and ends with its row number in four octets |
| FastLoadRow.SplitConcat | fastload_data_channel.go:134-143 | walking any list of framed rows by parcel length gives back those rows |
| FastLoadRow.SplitTiles | fastload_data_channel.go:134-143 | whatever splits into parcels is the concatenation of those parcels, each stating its own length |
| FastLoadRow.AttemptFits | fastload_data_channel.go:129-141 | accepted or rejected, everything one push writes lies within the parcel maximum |
| FastLoadBatch.WriteNull | fastload_encode.go:216-227 | writes the null placeholder of the column and nothing else |
| FastLoadBatch.WriteColumn | fastload_encode.go:229-330 | writes exactly the column's octets in place, or on failure nothing |
| FastLoadBatch.WriteRow | fastload_encode.go:198-214 | over whatever the reused buffer held, leaves the row's bitmap, columns and number, or on failure the part written so far |
| FastLoadBatch.BatchBuffer.PushRow | fastload_data_channel.go:134-144 | the array, position and count become those of the value-level push, with the length patched in place or the position rolled back |
| FastLoadBatch.BatchBuffer.Reset | fastload_data_channel.go:34-37 | forgets position and rows and keeps the octets |
| FastLoadDeal.HandMember | fastload_connection.go:326-337 | a row number belongs to a channel's share exactly when it is congruent to it, so to exactly one channel |
| FastLoadDeal.HandsEven | fastload_connection.go:330-331 | the shares of two channels differ by at most one row |
| FastLoadDeal.DealNext | fastload_connection.go:326-337 | one more accepted row, on the channel in turn, keeps every channel's share exact |
| FastLoadDeal.DealSame | fastload_connection.go:332-334 | a row that is not accepted consumes no number and no turn |
| FastLoadDeal.FlushedSent | fastload_connection.go:340-356 | channels that are drained with nothing in hand have sent every row dealt to them |
| FastLoadTx.LoadIsDealt | fastload_connection.go:326-337 | while a load is open channel j of n holds exactly the accepted numbers congruent to j+1 modulo n, ascending, and counts differ by at most one |
| FastLoadTx.CheckpointMeansSent | fastload_connection.go:389-396 | in every reachable state, each CHECKPOINT LOADING END in the log found every row 1..RowsSent in a batch whose send had succeeded |
| FastLoadTx.AtMostOneLoad | fastload_connection.go:130-132 | of all transactions handed out at most one is not done, and then both sessions exist |
| FastLoadTx.NothingLeftOpen | fastload_connection.go:223-236 | with no current load every data channel ever opened is closed, its worker exited and its connection closed |
| FastLoadTx.Drive | fastload_connection.go:51-500 | after any sequence of calls, on current and finished transactions, with failures anywhere, the connection and every transaction handed out are sound |
| FastLoadTx.SessionCount | fastload_connection.go:187-195 | the number of data sessions is between one and the maximum, and is the server's answer or the AMP count when that is in range |
| FastLoadTx.Connection.Open | fastload_connection.go:78-99 | both sessions or neither; a session dialled and not kept is closed |
| FastLoadTx.Connection.CloseSessions | fastload_connection.go:62-75 | every session ever opened is closed and both fields are nil |
| FastLoadTx.Connection.OpenDataChannels | fastload_connection.go:275-293 | n distinct open channels without rows, or none left open |
| FastLoadTx.Connection.CloseDataChannels | fastload_connection.go:295-303 | every channel given is closed |
| FastLoadTx.Connection.BeginFastLoad | fastload_connection.go:126-272 | without columns or with a load in progress nothing changes; success leaves the new load current, begun by its whole script; failure leaves no load and no open channel |
| FastLoadTx.Connection.Close | fastload_connection.go:51-60 | the current load is finished, no session and no channel is left open |
| FastLoadTx.Transaction.AddRow | fastload_connection.go:326-337 | a finished transaction refuses; otherwise only the channel in turn is touched and it gains the framed row with the next number exactly when that number is returned |
| FastLoadTx.Transaction.Flush | fastload_connection.go:340-356 | success means that every row counted so far was in a batch whose send succeeded |
| FastLoadTx.Transaction.EndSession | fastload_connection.go:389-417 | a failed flush says nothing to the server; success means checkpoint, commit, a new transaction around END LOADING, commit, all successful |
| FastLoadTx.Transaction.End | fastload_connection.go:359-387 | the transaction is done and no longer current; after a failed flush the load is aborted without any CHECKPOINT; RowsSent is the count the checkpoint was made with |
| FastLoadTx.Transaction.Abort | fastload_connection.go:420-444 | refused without traffic when done; otherwise done, not current, all earlier channels closed; success means fresh sessions, the release script and both error tables dropped |
| FastLoadTx.Transaction.ReleaseLoad | fastload_connection.go:467-485 | success means commit, BEGIN LOADING, END LOADING in a transaction, commit and DELETE ALL, in that order, each successful |
| FastLoadTx.Transaction.ClearStaleLoad | fastload_connection.go:447-465 | success means that the table was probed first and, if the probe was refused, that the table was being loaded and the load was released by the whole script |
| FastLoadTx.Transaction.DropOne | fastload_connection.go:515-529 | at most five attempts, each but the last answered by a deadlock; gone means dropped or not there |
| FastLoadTx.Transaction.Commit | fastload_connection.go:549-556 | success means that nothing but ET was sent, each time successfully, until no transaction was in progress |
| FastLoadTx.Transaction.Begin | fastload_connection.go:541-547 | with a transaction in progress nothing is sent; otherwise one statement is, and success means that it was BT |
| FastLoadTx.Transaction.Finish | fastload_connection.go:495-500 | channels closed and forgotten, done set, no current transaction |
| Number.EncodeNumberMeaning | number.go:82-117 | for every integer and scale: refused exactly when the final scale leaves 16 bits; otherwise at most 20 octets that decode, whatever follows, to a canonical value exact up to 40 digits and otherwise within one unit or half a unit of the last kept digit |
| Number.TwosComplementExact | number.go:131-142 | the shortest two's complement octets that read back as the value |
| Number.ReducedRepresents | number.go:86-108 | reduction to 40 digits, with its carry and the stripping of zeros, represents the input and leaves no trailing zero |
| Number.WrapsUnseen | number.go:82-117 | with every subtraction of scales wrapped to 64 bits the encoder gives the same octets and the same refusals as over the integers |
| Number.FarScaleUnseen | number.go:51-117 | a scale that left 64 bits when it was computed from its text gives the same octets or refusal as the true one |
| Decimal.QuoRoundHalfUpNearest | number.go:119-129 | the result is the nearest quotient with ties away from zero, and the only one |
| Decimal.QuoRoundHalfUpOdd | number.go:119-129 | negating the dividend negates the result |
| Decimal.QuoRoundHalfUpMonotone | number.go:119-129 | a larger dividend never gives a smaller result |
| Decimal.RescaleRight | fastload_encode.go:504-520 | rounding and truncating rescale what a text denotes correctly when and only when it is zero or neither the scale nor its distance from the target left 64 bits |
| Decimal.RescaleUpDown | fastload_encode.go:504-520 | rescaling to a finer scale and back is the identity, even when the distance of the scales overflows |
| Decimal.RescaleHalfUnit | fastload_encode.go:504-520 | a rescaled value is within half a unit of the input at the new scale when and only when the value is zero or no subtraction left 64 bits |
| Decimal.PrintParse | rows.go:515-545 | parsing a printed decimal gives back its value, for every raw integer and every scale whose negation is an int |
| Decimal.PrintScale | datatype.go:223-253 | scaling the printed text of a raw integer at its own scale gives the raw integer back |
| Decimal.DecimalToScaledInt | datatype.go:223-253 | the cut-and-pad loop computes the scaled integer of the specification |
| NullBitmap.BitmapReads | params.go:394-399 | the decoder sees a null exactly where the encoder marked one, and every other bit is clear |
| RowCodec.ShapesAgree | params.go:139-262 | the encoder's and the decoder's switch agree on every type that can be encoded, except INTERVAL MINUTE TO SECOND |
| RowCodec.FixedWidthBytes | datatype.go:208-221 | pads or cuts to the width, and leaves the value alone for width zero |
| RowCodec.ValueRoundTrip | rows.go:344-513 | a value in range is read back as itself, padded or printed, dates as the day they are, from anywhere in a buffer, consuming exactly its octets |
| RowCodec.ValueRoundTripsExactly | params.go:135-263 | a value of any type that can be encoded is read back as itself exactly when it is in range; for a date, from year zero on and within 32 bits |
| RowCodec.DateTextInjective | rows.go:471-478 | a printed date determines its year, month and day, whatever their signs |
| RowCodec.DaySpelled | rows.go:471-478 | a calendar day is printed for an integer exactly when its year is not negative and the integer is its own |
| RowCodec.YearBeforeZero | rows.go:471-478 | the first day of the year -1 comes back as a text that is no day |
| RowCodec.WidthZero | params.go:186-192 | a letter for a CHAR column of declared width zero is sent and read back as nothing |
| RowCodec.NullRoundTrip | params.go:265-311 | a null placeholder is read back as null and exactly skipped |
| RowCodec.RowRoundTrip | rows.go:302-314 | for every list of supported parameters with values in range and any nulls, decoding the IndicData body gives the values in order and stops at its end |
| RowCodec.ProcessRow | rows.go:302-314 | the loop fills its part of dest with the decoded row, moves the cursor past it, and touches nothing else of dest |
| RowCodec.WriteIndicData | params.go:390-405 | the parcel is header, null bitmap and parameters, written in place |
| RowCodec.BuildBitmap | params.go:394-399 | the bit-setting loop yields the bitmap of the nulls |
| DataTypes.FamilyFound | datatype.go:163-194 | a code built from a base and an offset is found in that family with that mode, whatever the order of the table |
| DataTypes.TableSpaced | datatype.go:96-144 | every base code of the table is a multiple of four in the range FamilyFound asks for |
| ReadBuffer.ReadBuffer.Fill | buffer.go:45-79 | pending octets followed by those still to come never change, under any schedule; enough octets before a fault mean success; the kept store stays below the cap |
| ReadBuffer.ReadBuffer.Compact | buffer.go:50-61 | growing or compacting moves the pending octets to the front and loses none, even out of an oversized buffer |
| ReadBuffer.ReadUntil | buffer.go:62-78 | the read loop ends and gathers exactly what the connection delivers |
| ReadBuffer.ReadBuffer.Peek | buffer.go:81-86 | shows the next octets and consumes nothing |
| ReadBuffer.ReadBuffer.Next | buffer.go:88-92 | hands out exactly the next octets and keeps the rest |
| ReadBuffer.ReadBuffer.ReadNext | buffer_reader.go:133-138 | exactly n octets of the stream, or an error and nothing consumed |
| Buffers.WriteBuffer.Take | buffer.go:104-116 | zeroed space of the length asked for; the retained array stays below the cap |
| Buffers.BufferWriter.Skip | buffer_writer.go:95-101 | zeroes n octets at the position and nothing else |
| Buffers.BufferWriter.Copy | buffer_writer.go:62-68 | overwrites at the position and nothing else |
| Framing.HeaderRoundTrip | packet_header.go:120-169 | a parsed header is the header written, its length modulo 2^32 |
| Framing.WsRoundTrip | tls.go:218-274 | the reader steps over exactly the frame header written, for every length |
| Framing.LaidExactly | packet.go:62-84 | parcels fill a buffer of the declared total exactly when each write succeeds within its declared length |
| Framing.LaidHow | packet.go:62-84 | laying out panics exactly when the parcels up to the first failing write outgrow the buffer, and fails exactly when a write fails before that |
| Framing.HonestLaid | packet.go:62-84 | honest parcels are laid out one after the other, each zero-padded to its declared length |
| Framing.PlainReads | packet.go:169-221 | what any plain message is read as, whatever follows it on the stream |
| Framing.PlainRoundTrip | packet.go:96-100 | a plain message, framed or not, is read back with its exact octets consumed when and only when its body is shorter than 2^32 |
| Framing.SecretRoundTrip | packet.go:87-221 | an encrypted message opens to the same parcels, consuming exactly its octets, when and only when its body is shorter than 2^32; the clear header fields are those sent |
| ResponseParcels.EndlessExactly | parcel.go:140-182 | of all response parcels only an authentication mechanism never ends, and exactly when its object identifier is one and its attribute loop reaches a readable attribute of length zero |
| ResponseParcels.ReadsNoFurther | parcel.go:140-182 | contents that do not run past the data are read the same, ending or not, whatever follows them |
| ResponseParcels.ReadAttributes | parcels_response.go:164-183 | the attribute loop has the outcome of the specification |
| ResponseParcels.ReadExtensions | parcels_response.go:346-369 | so has the loop over warnings and merge counts |
| ResponseParcels.ReadFeatures | parcels_response.go:945-1129 | so has the feature loop of the configuration response |
| ResponseParcels.ReadRecords | parcels_response.go:474-534 | so has the record loop of the statement info, over the octets of each record |
| ParcelWalk.WalkParcels | packet.go:131-149 | the loop that reads every parcel, contents included, computes the outcome of the specification |
| ParcelWalk.WalkSeesAll | parcel.go:91-99 | from header to header, any nonempty list of parcels with short or long headers shows exactly those parcels |
| ParcelWalk.ReadsWhatIsSeen | packet.go:131-149 | the loop ends with the parcels the headers show exactly when the contents of each can be read |
| ParcelWalk.ReadSeesAll | packet.go:131-149 | over any nonempty list of parcels that are read within their own octets, wherever it lies, the loop sees exactly those |
| ParcelWalk.ForeverExactly | packet.go:131-149 | the loop never ends exactly when its steps over parcels it reads and passes bring it to one whose contents never end, or that is read and states length zero before the end |
| ParcelWalk.OverrunExactly | packet.go:131-149 | the loop panics exactly when its steps bring it to a parcel whose header or contents run past the data |
| ParcelWalk.MechanismForever | parcels_response.go:150-187 | a window of one authentication mechanism, with an attribute of length zero, that the loop never leaves |
| ParcelWalk.ZeroLengthForever | packet.go:131-149 | after any self-contained parcels a header of length zero before the end of the window keeps the loop from ending, unless reading that parcel panics |
| ParcelWalk.ZeroLengthPanics | packet.go:131-149 | a success parcel of length zero at the end of the data panics and does not loop |
| ParcelWalk.CheckErrorParcel | parcel.go:111-128 | the loop stops at the first error and otherwise restores the cursor |
| ParcelWalk.CheckSeesFirst | parcel.go:111-128 | the check finds the first error parcel among those the headers show, or none, and panics exactly when reading that parcel does |
| ParcelWalk.CheckForeverExactly | parcel.go:111-128 | the check never ends exactly when, passing no error, it comes before the end to a header that is none and states length zero |
| ParcelWalk.CheckAgrees | packet.go:151-154 | on every message that can be read to its end the check finds the first error among the parcels read |
| Framing.WholeStack | packet.go:46-158 | honest parcels are laid out, framed, read from whatever stream they head, and walked as exactly those parcels, by headers and, where each is self-contained, contents included |
| Framing.SecretStack | packet.go:46-225 | the same over the encrypted path: laid out, wrapped, read, opened and walked in the decrypted window as exactly those parcels |
| Packet.WriteWsHeader | tls.go:218-244 | writes the frame header at the front of the buffer |
| Packet.WriteHeader | packet_header.go:120-142 | writes the 52 header octets after what is there |
| Packet.WriteParcels | packet.go:67-84 | the parcel loop lays out the body, or fails or panics as the specification says |
| Packet.PatchLength | packet.go:93-98 | puts the length into its four octets and changes nothing else |
| Packet.LanConnection.WriteLanMessage | packet.go:24-107 | in the clear nil means that exactly the message is on the wire; encrypted, nil means only that it could be wrapped; after nil the message was sent exactly when the connection is not bad |
| Packet.LanConnection.Transmit | packet.go:109-121 | the wire grows by a prefix of the data; anything short of all of it is an error on a bad or closed connection |
| Packet.LanConnection.ReadLanMessage | packet.go:169-225 | when the octets to come hold a whole message it is returned and exactly it is consumed, under any schedule of reads; every refusal and every failed read marks the connection, a panic or an endless loop in the control data does not |
| Der.TlvRoundTrip | der.go:115-142 | a record is parsed back from anywhere in a buffer, with its exact length |
| Der.ChildrenRoundTrip | der.go:78-90 | any list of records survives encoding, concatenation and parsing |
| Der.ChildrenTile | der.go:78-90 | on every input, parsing yields records exactly when they tile the content |
| Der.ParseTlvLoop | der.go:32-76 | the length loop computes the record of the specification, error and panic cases included |
| Der.PanicsExactly | der.go:32-76 | parsing panics exactly when there is a length and it, or the end of the content, is no longer a nonnegative int |
| Der.ParseChildren | der.go:78-90 | the loop ends on every input with the records of the specification |
| Der.EncodeLength | der.go:133-142 | the length loop yields the specified length octets |
| Der.LengthMinimal | der.go:133-142 | lengths use the shortest definite form |
| Der.ShortLengthsNeverPanic | der.go:51-57 | so at most seven length octets never panic |
| Der.EightLengthOctetsPanic | der.go:51-73 | and eight octets of 255, which read as -1, do |
| Der.MinimalIntRoundTrip | der.go:92-161 | both readers invert the minimal integer, whose sign bit is never set |
| Td2.QopKeyLoop | auth_td2.go:249-264 | the offset loop, with its sum kept in an int, selects the specified slice of the shared secret |
| Td2.UnwrapWrap | auth_td2.go:166-361 | for every message, key agreement and sequence number, unwrapping what was wrapped gives the message, because the nonce rebuilt from the header is the one sealed with |
| Td2.NonceIsTokenTail | auth_td2.go:154-163 | the nonce is the last twelve octets of the token |
| Td2.NonceInjective | auth_td2.go:154-163 | a nonce determines the sequence number |
| Td2.NoncesDistinct | auth_td2.go:166-247 | no two of at most 2^64 successful wraps share a nonce |
| Td2.Context.Wrap | auth_td2.go:166-247 | a failed wrap uses up no sequence number; a successful one takes the next and a nonce not used before |
| Td2.ReadFields | auth_td2.go:295-318 | the header loop keeps the last value of each field |
| Td2.WrappedLonger | auth_td2.go:225-246 | an envelope is longer than its message by at least the padding and the tag |
| Td2Options.SuiteMeaning | auth_td2.go:609-630 | a suite is read exactly when every field is known, and each setting is what the last field with its tag says |
| Td2Options.OptionsRead | auth_td2.go:585-635 | any list of suites decodes to what each says, in order; one unknown field refuses them all |
| Td2Options.DecodeOptions | auth_td2.go:585-635 | the nested loops compute the options of the specification |
| StatementInfo.FromBuffer | parcels_response.go:466-537 | each item hangs from its nearest enclosing struct or array or is routed by content type, and is numbered since the last separator |
| StatementInfo.Pop | parcels_response.go:510-512 | popping leaves exactly the entries strictly shallower than the item |
| StatementInfo.DepthsIncrease | parcels_response.go:509-527 | depths on the stack strictly increase |
| StatementInfo.RoutedOnce | parcels_response.go:514-522 | a list holds exactly the items routed to it, ascending, each once |
| StatementInfo.ForestUnique | parcels_response.go:504-530 | the declarative meaning allows only one forest |

## Left out

- FastLoadRow.FrameFits: with the widths as declared; the channel is taken to start by the size check over their true sum, which is the source's for declared widths and sums below 2^63 (`FastLoadChannel.CheckedRight`).
- FastLoadEncode.NumberStored: of the number a text of 2^61 octets or more denotes it says nothing, only of the one computed.
- FastLoadTx.Transaction.AddRow: requires fewer than 2^31-1 rows, where the source's int32 row number would wrap.
- FastLoadTx.Transaction.Commit: the server is taken to leave a transaction open after ET only finitely often in a row, without which the source's loop does not end.
- FastLoadTx.Transaction.End: reading the error tables is one statement each; the rows read and the activity count returned are not modelled.
- FastLoadTx.Connection.OpenDataChannels: dialling, the handshake and the logon are one step that may fail.
- FastLoadDataChannel.DataChannel.Close: the `broken` flag and the deadline it sets are not modelled; both ways of closing end with the connection closed.
- FastLoadChannel.RunInv: the batches inside the channel are values; `FastLoadBatch.BatchBuffer` is the in-place form of the one operation that writes them. The count of rows the server accepted is not kept.
- Number.WrapsUnseen: for integers of fewer than 2^61 digits, more than memory holds.
- Decimal.PrintParse: not for scale -2^63, whose negation is not an int.
- FastLoadEncode.TemporalStored: a time's text comes with the value, as formatting a `time.Time` is not modelled.
- RowCodec.ProcessRow: LOB locators are outside the model; declared widths are below 2^63.
- Packet.LanConnection.ReadLanMessage: the security policy that control data may state is not kept; an encrypted message without control data is what the round trip covers. Reading past the decrypted octets is taken as a panic, although the slice has the room of its authentication tag behind it.
- ParcelWalk.WalkParcels: what reading a parcel does is modelled for every flavor, what it says only for the statement info; a loop that never ends is one whose reader does not move, whatever memory it takes.
- ResponseParcels.EndlessExactly: object identifiers are accepted as the Go library does, minimal and with components below 2^31.
- ReadBuffer.ReadBuffer.Next: the slice handed out is a copy; that it aliases the buffer until the next read is not modelled.
- Td2.UnwrapWrap: AES-GCM is an ideal pair of functions with a 16-octet tag; key agreement, random numbers and the handshake are parameters.
- StatementInfo.FromBuffer: the records are given as read; what the fields of one record say is not modelled, only their extent (`ResponseParcels.RecordFits`) and the length the caller passes, which counts the parcel header.
- Decimal.ParseNumber: white space is ASCII only; the texts of floats and times come with the value.
- newFastLoadColumnEncoder and the building of SQL text: a table of cases and string formatting.
- Request parcels one by one, the configuration response, DSN parsing, LOB fetching and rows that continue in a later message.
- Dialling, discovery, TLS certificates, the HTTP upgrade, logging and error texts.
