# Verification of the SML decoding stack

This project models the stack that turns the noisy byte stream of an electricity meter into
two readings (`modules/rust/sml`, with the byte-reading futures of `modules/rust/io` under it
and the collector of `modules/rust/smartmeter` on top), and proves what the stack is for: from
raw bytes, delivered in any pieces and with any pauses, to the calls that the callback gets.

The protocol is SML as specified in BSI TR-03109-1, Anlage Feinspezifikation Drahtgebundene
LMN-Schnittstelle, Teil B (transport protocol version 1 and binary encoding). The check values
are the 16-bit FCS of RFC 1662, Appendix C.2.

## How it is built

Every layer has a pure description of what it should do and, beside it, a class or method with
the loops and the state of the program, proved to do exactly that for every schedule of the
source. A schedule says, poll by poll, whether the driver has nothing yet, gives so many bytes
at most, or fails; a run of the model is cut off where the schedule ends. So every contract
that does not mention the schedule holds for all ways to split the stream and all pauses.
Contracts say "unless the source has failed"; it fails only if the driver reports a fault or
has no answer left, and `Io.Enough` is the condition on a schedule under which it does not.

| layer | description | program |
|---|---|---|
| byte source | `Io.Leads` (what some answers lead to) | `Io.Source` |
| exact reads | the next bytes of the stream | `IoFutures`, `Message.ReadExact` |
| start marker | `StartMarker.Count`, `EndsWithMarker` | `StartMarker.WaitForStartSequence` |
| de-framer | `Deframing.Decode`, and the state machine `Deframer` | `Frame` |
| check values | the fold `Crc.Update`, bit by bit in `CheckBits` | `Message.CheckingReader` |
| encoding | `Tlv.ParseTrees` (recursive), `Headers` | `TlvReader.Reader` |
| lazy cursor | `Cursors` (what is owed), `Walker` (walking trees), `Steps` | `TlvReader.Reader`, `Consumer`, `Fields` |
| values | `Values` | `Meter.TakeValue` |
| meter | `Readings` (on trees), `MeterSteps` (on any data) | `Meter`, `Callbacks.Callback` |
| messages | `Messages.AcceptAll` (what is accepted), `FrameRuns` (on any data), `MessageLists` | `ReadFrame` |
| run | `Task.Faithful`, `Reports`, `Delivery`, `MeterDelivery` | `Task.Task` |

Where the data may be malformed, a step of the cursor (`Cursors.Step`) says what an operation
returns and where the cursor is then; a contract `Agrees` with such a step unless the source
fails. The functions on trees say the same of well-formed data without a cursor.

A callback is either the meter's (`Callbacks.Meter`), or `Callbacks.Strategic`: any function
from what has been observed, in this message and in all messages before, to the next operation
or to a reply.

`Deframing.FrameOf`, `Headers.Encode` and `Sending` are the encoders, which do not exist in the
program; they are the inverses that the round trips are stated with.

The main results, from the top:

* `Task.Task`, `Task.CallsInOrder`, `Reports.ReportsExactly`: every run calls the callback in
  the order start, messages, end; a report is made exactly at the end of a valid frame that
  holds both readings, and consists of that frame's values.
* `Task.SameRounds`: in which pieces and with which pauses the stream arrives makes no
  difference, for invalid frames as well: two runs over the same stream in which the source
  does not fail consist of the same rounds.
* `Delivery.AllDelivered`: every run whose driver reports no fault and answers often enough
  receives all frames that are sent between noise, behind start markers, one round each;
  `Delivery.ReceivedExactly`: exactly which frames are received in a stream of valid frames,
  broken ones and noise.
* `MeterDelivery.MeterReports`: a frame leads to a report exactly if the meter's callback
  understands all its messages and they carry one reading of either kind.
* `ReadFrame.ReadFrame`: a frame is read successfully if and only if the pure decoder accepts
  it and its payload is a run of messages with matching check values that the callback accepts;
  in any case how many messages the callback gets and where the stream then stands are given.
* `Sending.EndToEnd`: any messages put into a frame come out of it, whatever the callback does
  with them and however it decides on that.
* `Walker.RunRefines`, `Cursors.RunKeepsLand`: whatever a consumer reads, skips or drops
  half-read, the lazy cursor shows it the same as the parsed trees, and always knows where the
  data ends.
* `Tlv.FlatIsDescent`: skipping with one counter is recursive descent.
* `Frame.CheckingReader.PollRead`, `Deframing.AcceptsExactlyFrames`,
  `Deframing.PayloadRoundTrip`: the de-framer delivers what the decoder decodes, accepts
  nothing but frames, and is inverted by framing.
* `StartMarker.AcceptsExactly`, `StartMarker.MarkerCaught`: when the automaton stops, and
  exactly which markers it misses.
* `Headers.HeaderUnderstood`, `MessageLists.WholeIfLastHasSix`, `MessageLists.EachCoversItself`:
  exactly which over-long headers and truncated or over-long message lists are accepted.

Every proof is spelled out: no lemma uses Dafny's automatic induction. Lemmas about the objects
of a class, such as `Frame.CheckingReader.HeldBack`, hold in every state in which the object's
`Valid()` holds. Constructors establish `Valid()`, and the methods that are called from other
classes keep it. Of the parts that `Frame.CheckingReader.PollRead` is split into, some start or
end in the middle of a step, where only `Shape()` holds.

## Where the code differs from what one might expect

* A `1B` in the second half of a marker sets the automaton back to 0, not to 1, so the marker
  that follows directly is missed (`StartMarker.FirstMarkerMissed`). `MarkerCaught` gives the
  exact condition.
* The meaning of a header's length depends on the type bits of its last byte, which are those
  of a string in every header of two bytes or more. Lists of more than 15 elements therefore
  lose the length of their header (`Headers.ListRoundTrip`).
* `checked_shl` checks the distance only: too long lengths lose their high bits, and
  `TlvLengthTooBig` never occurs (`Headers.NeverTooBig`). `Headers.WrappedLength` is an input on
  which a length of 2^32 and more is accepted as a short one, and `Headers.HeaderUnderstood`
  says for every number in a header what it is taken for; `Headers.PrimitiveRoundTrip` is the
  exact condition under which a length is read as meant.
* The payload of a value of a reserved type is not accounted for
  (`Cursors.LandAfterUnsupported`, `Cursors.UnsupportedLosesPlace`).
* The constants `check` and `residue` (modules/rust/sml/src/lib.rs:24-25) are not those of the
  algorithm, which are 0x906E (`CheckBits.KnownCheckValue`) and 0xF0B8 (`CheckBits.Residue`).
  Nothing depends on them.
* If a message list has more than six elements, the ones after the end marker are skipped when
  the next message is read, and are covered by that message's check value
  (`MessageLists.ChecksOf`); check values cover exactly their own messages if and only if all
  messages but the last have six (`MessageLists.EachCoversItself`).
  `SpareElements.StraddlingAccepted` gives payloads on which they do not. A message with its own
  right check value is refused behind spare elements, unless these leave the register of the
  check value as it was (`SpareElements.RightlyCheckedRefused`, and
  `SpareElements.EmptyStringSpare` for an input). After the last message spare elements are never
  asked for, so a truncated list is accepted (`SpareElements.TruncatedAccepted`); an accepted
  payload consists of complete lists if and only if its last message announces six elements
  (`MessageLists.WholeIfLastHasSix`).
* A frame that breaks off between two blocks swallows the start marker that follows at once, and
  the next frame is missed (`Deframing.BrokenOff`). `Delivery.MarkerAfterBrokenOff` gives the
  exact condition.

## Model

| member | source | states |
|---|---|---|
| Io.Source.PollRead | modules/rust/smartmeter/src/capi.rs:15-38 | the contract of the byte source: pending, the error that the driver reports, or at least one and at most as many bytes as asked for, the next ones of the stream; one answer of the driver is used for it |
| Io.LeadsOn | modules/rust/smartmeter/src/capi.rs:15-38 | polling some times and then some more leads where polling all these times does |
| Io.EnoughReads | modules/rust/smartmeter/src/capi.rs:15-38 | with a driver that reports no fault and has an answer for each byte needed, polling does not fail before these bytes have been read |
| IoFutures.ReadNumber.Poll | modules/rust/io/src/lib.rs:157-185 | a poll goes on where the last one stopped; once complete, exactly the next bytes have been taken and give the number in the type's byte order |
| IoFutures.ReadNumber.Await | modules/rust/io/src/lib.rs:157-185 | polling to the end over any schedule takes exactly the number's bytes, unless the source fails |
| IoFutures.ReadU8 | modules/rust/io/src/lib.rs:222 | one byte, the next one |
| IoFutures.ReadU32Le | modules/rust/io/src/lib.rs:208 | four bytes, the next ones, each with its weight, the first one being the least |
| IoFutures.OrdersMirrored | modules/rust/io/src/lib.rs:201-219 | a little-endian number is the big-endian one of the bytes in reverse |
| IoFutures.SignedExactly | modules/rust/io/src/lib.rs:211-219 | two's complement: the unsigned number up to multiples of the modulus, in the range of the width |
| IoFutures.KnownNumbers | modules/rust/io/src/lib.rs:264-271 | certain bytes in either order, signed and unsigned, as literal numbers |
| Message.ReadExact.Poll | modules/rust/io/src/lib.rs:80-102 | one poll of the future: exactly the bytes taken so far are in place, the next poll goes on behind them, and it gives up only if the source fails or the payload is over |
| Message.CheckingReader.ReadExactly | modules/rust/io/src/lib.rs:80-102 | awaiting that future fills the buffer with exactly the next bytes in order, over any schedule; otherwise the source has failed or the payload is over |
| StartMarker.WaitForStartSequence | modules/rust/sml/src/frame.rs:343-361 | stops just after the byte with which the automaton accepts, and not before; if the source fails, with the driver's error |
| StartMarker.AcceptsExactly | modules/rust/sml/src/frame.rs:346-359 | it stops after a byte if and only if the last eight bytes are the marker and it had counted to 4 at most before them |
| StartMarker.StopsOnce | modules/rust/sml/src/frame.rs:346-361 | in any stream there is at most one place at which it stops |
| StartMarker.MarkerCaught | modules/rust/sml/src/frame.rs:348-358 | a marker is caught if and only if it does not begin in the second half of another one |
| StartMarker.CaughtAfterOtherByte | modules/rust/sml/src/frame.rs:353-355 | after any byte other than `1B` and `01` the next marker is always found |
| StartMarker.LongRunsTolerated | modules/rust/sml/src/frame.rs:351-352 | any longer run of `1B` is tolerated |
| StartMarker.FirstMarkerMissed | modules/rust/sml/src/frame.rs:350-355 | a marker that directly follows a broken one is missed |
| Crc.UpdateConcat | modules/rust/sml/src/lib.rs:17-28 | digesting in two steps is digesting the concatenation |
| Crc.FinalizeFits | modules/rust/sml/src/lib.rs:17-26 | check values fit 16 bits |
| Crc.SameWithFront | modules/rust/sml/src/lib.rs:17-28 | bytes put in front leave a check value unchanged if and only if digesting them alone leaves the register unchanged |
| Crc.OddFrontShows | modules/rust/sml/src/lib.rs:17-28 | bytes with an odd number of one bits in front always change a check value |
| Crc.NothingChecked | modules/rust/sml/src/lib.rs:17-26 | the check value of nothing is 0 |
| CheckBits.CheckValueOfZero | modules/rust/sml/src/lib.rs:17-26 | the check value of a single zero is 0xF078 |
| CheckBits.KnownCheckValue | modules/rust/sml/src/lib.rs:17-26 | the check value of the digits from 1 to 9 is 0x906E, that of the 16-bit FCS |
| CheckBits.Residue | modules/rust/sml/src/lib.rs:17-26 | whatever has been digested, digesting its check value as well leads to the register 0xF0B8 |
| Bytes.SwappedBe | modules/rust/sml/src/frame.rs:177-178 | reading two bytes big-endian and swapping them is reading them little-endian |
| Bytes.LeConcat | modules/rust/io/src/lib.rs:206-219 | little-endian numbers are positional, for any number of bytes |
| Bytes.BeConcat | modules/rust/io/src/lib.rs:201-214 | so are big-endian ones |
| Deframing.RoundTrip | modules/rust/sml/src/frame.rs:159-248 | stuffed blocks with fill and check value decode to the payload, and decoding stops just after the frame |
| Deframing.PayloadRoundTrip | modules/rust/sml/src/frame.rs:159-248 | every payload of any length survives being padded, stuffed, framed and decoded |
| Deframing.AcceptsExactlyFrames | modules/rust/sml/src/frame.rs:159-232 | the decoder accepts if and only if the stream holds a frame, and then its data is the frame's payload |
| Examples.TransmissionAccepted | modules/rust/sml/src/frame.rs:159-232 | a frame of four data bytes, given byte by byte with its marker and check value, is accepted, and the data comes out |
| Deframing.BrokenOff | modules/rust/sml/src/frame.rs:159-241 | a frame that breaks off between two blocks, the next start marker following, ends with an error just behind that marker |
| Deframer.BlockRefines | modules/rust/sml/src/frame.rs:152-241 | one complete block leaves as much ahead as the decoder says, or ends with the decoder's error |
| Deframer.ReturnRefines | modules/rust/sml/src/frame.rs:242-273 | handing out bytes takes exactly these off what lies ahead, for every size of the caller's buffer |
| Deframer.RoomToRead | modules/rust/sml/src/frame.rs:144-150 | whenever the source is polled the active buffer has 0 to 3 bytes and the other one 4, or 0 before the first data block |
| Deframer.HoldBack | modules/rust/sml/src/frame.rs:197-225 | what is out is a beginning of the data blocks without the latest one |
| Deframer.EndsWithLastByte | modules/rust/sml/src/frame.rs:259-263 | after the first payload byte, nothing is left to deliver only if the machine has ended |
| Deframer.PlacedBlock | modules/rust/sml/src/frame.rs:159-241 | a complete block keeps the promise how far the stream will have been read when each byte of the payload comes out |
| Deframer.PlacedReturn | modules/rust/sml/src/frame.rs:242-273 | when a byte comes out, the stream has been read exactly as far as the decoder needs for it |
| Frame.Buffer.SetRead | modules/rust/sml/src/frame.rs:33-35 | keeps the first bytes |
| Frame.Buffer.AddRead | modules/rust/sml/src/frame.rs:37-39 | the bytes put behind the filled part become part of it |
| Frame.Buffer.SubRead | modules/rust/sml/src/frame.rs:41-43 | drops the last bytes |
| Frame.CheckingReader.SwapBuffers | modules/rust/sml/src/frame.rs:55-86 | the two buffers change places |
| Frame.CheckingReader.FillActive | modules/rust/sml/src/frame.rs:143-157 | polls for the free part of the active buffer and keeps the frame tracked, also if pending or failing |
| Frame.CheckingReader.CompleteBlock | modules/rust/sml/src/frame.rs:159-241 | a complete block has the effect of the state machine's transition |
| Frame.CheckingReader.EndFrame | modules/rust/sml/src/frame.rs:175-225 | the trailer has the effect of the state machine's transition: check value first, then fill bytes |
| Frame.CheckingReader.HandOut | modules/rust/sml/src/frame.rs:242-273 | copies the next bytes of the active buffer and moves on as the state machine says |
| Frame.CheckingReader.PollRead | modules/rust/sml/src/frame.rs:135-281 | whatever the schedule and the caller's buffer sizes, what comes out is the next piece of the decoded frame, the outcome is the decoder's, and the stream is read no further than that needs |
| Frame.CheckingReader.EndIsExact | modules/rust/sml/src/frame.rs:129-133 | once payload is out, the reader has ended exactly when the frame was accepted and all its payload is out; it then stands just after the frame, and the bytes of the stream from its start to there are the blocks that the check value was compared for |
| Frame.CheckingReader.HeldBack | modules/rust/sml/src/frame.rs:113-114 | before the trailer has been checked the digest is that of the stream's bytes from the start of the frame to the last complete block, and no byte of the latest data block is out |
| Message.CheckingReader.PollRead | modules/rust/sml/src/message.rs:34-48 | for any buffer, empty ones included, and after errors: the next bytes of the payload come out, and the digest covers exactly the bytes delivered since it was begun |
| Message.CheckingReader.Finalize | modules/rust/sml/src/message.rs:16-21 | returns the check value of the bytes delivered since digesting began, and begins anew |
| Message.CheckingReader.Reset | modules/rust/sml/src/message.rs:23-25 | digesting begins anew |
| Headers.HeaderUnderstood | modules/rust/sml/src/tlv.rs:333-373 | whatever number is written in a header of any length, it counts up to multiples of 2^32 only; the header is accepted if and only if it is a list's single byte or what is left of the number is at least its own length |
| Headers.PrimitiveRoundTrip | modules/rust/sml/src/tlv.rs:333-373 | the shortest header of a string or number is read back as written if and only if the total length fits the word |
| Headers.ListRoundTrip | modules/rust/sml/src/tlv.rs:354-369 | the header of a list with any number of elements is read back as written if and only if that is at most 15; what it is taken for otherwise |
| Headers.HeaderWritten | modules/rust/sml/src/tlv.rs:333-373 | conversely, all bytes that are read as a header, or refused for their length or as an end marker, are a header with some number written in it |
| Headers.ReservedLater | modules/rust/sml/src/tlv.rs:340-346 | a reserved type in a header is reported exactly for the first byte after the first one that has one |
| Headers.WrappedLength | modules/rust/sml/src/tlv.rs:348-351 | nine bytes that announce a string of 2^32 + 1 bytes and are accepted as one of a single byte |
| Headers.NeverTooBig | modules/rust/sml/src/tlv.rs:348-351 | the error for too long lengths never occurs |
| Tlv.SkipAdds | modules/rust/sml/src/tlv.rs:422-454 | skipping in two goes is skipping at once |
| Tlv.FlatIsDescent | modules/rust/sml/src/tlv.rs:422-454 | the flat counter lands where recursive descent ends and reports its errors; an end marker is `EndOfSmlMessage` exactly if it is the last thing owed |
| Cursors.LandAfterStep | modules/rust/sml/src/tlv.rs:229-290 | every operation that a consumer can go on after keeps the place where the data ends, and the handles below its own |
| Cursors.RunKeepsLand | modules/rust/sml/src/tlv.rs:57-290 | conservation: so does every consumer that reads, skips and drops as it decides by what it has observed |
| Cursors.LandAfterElement | modules/rust/sml/src/tlv.rs:196-222 | asking for an element of a certain type keeps the place even if another type is found |
| Cursors.UnsupportedExactly | modules/rust/sml/src/tlv.rs:229-261 | reading an element fails for its type if and only if one is left and the header ahead is of a reserved type |
| Cursors.LandAfterUnsupported | modules/rust/sml/src/tlv.rs:258 | if such a header is ahead, skipping then starts at its payload instead of after it, which keeps the place if the payload is empty |
| Cursors.UnsupportedLosesPlace | modules/rust/sml/src/tlv.rs:258 | an input on which the place is lost that way |
| Cursors.DropToKeepsLand | modules/rust/sml/src/tlv.rs:189-194 | dropping all handles keeps the place |
| Cursors.LandOfDebts | modules/rust/sml/src/tlv.rs:375-387 | with all handles dropped, `skip_now` leads to that place, or fails if it does not exist |
| Walker.ParseSplit | modules/rust/sml/src/tlv.rs:281-290 | some trees are parsed in two goes as at once |
| Walker.StepRefines | modules/rust/sml/src/tlv.rs:229-290 | every operation on the cursor gives what it gives on the trees |
| Walker.RunRefines | modules/rust/sml/src/tlv.rs:57-290 | so does every consumer that chooses its operations by what it has observed, whatever was left half-read in between |
| Walker.NextFieldIsFixed | modules/rust/sml/templates/messages.rs:15-31 | field access does not depend on whether the fields before were skipped, parsed, dropped half-read or finished |
| Walker.WalkNeverAborts | modules/rust/sml/src/tlv.rs:229-261 | on trees of supported types no operation has an error that would have to be passed on |
| TlvReader.Reader.ReadExactly | modules/rust/sml/src/tlv.rs:50 | reads exactly the next bytes |
| TlvReader.Reader.ReadHeader | modules/rust/sml/src/tlv.rs:333-373 | the loop over header bytes reads what the header grammar says, errors included |
| TlvReader.Reader.SkipBytes | modules/rust/sml/src/tlv.rs:403-417 | moves on by exactly that many bytes |
| TlvReader.Reader.SkipTlvs | modules/rust/sml/src/tlv.rs:422-454 | skips as the flat counter says, and terminates although the counter can grow |
| TlvReader.Reader.SkipNow | modules/rust/sml/src/tlv.rs:375-387 | pays what is owed, bytes first |
| TlvReader.Reader.ReadTlv | modules/rust/sml/src/tlv.rs:389-393 | pays what is owed and reads a header |
| TlvReader.Reader.ReadList | modules/rust/sml/src/tlv.rs:395-401 | opens a list, or reports the type found |
| TlvReader.Reader.DropTop | modules/rust/sml/src/tlv.rs:57-62 | what the handle has left is owed from then on |
| TlvReader.Reader.Next | modules/rust/sml/src/tlv.rs:229-261 | the next element comes into use; the list has one less |
| TlvReader.Reader.NextEnd | modules/rust/sml/src/tlv.rs:270-279 | accepts an end marker and nothing else, as an element |
| TlvReader.Reader.Skip | modules/rust/sml/src/tlv.rs:281-290 | the elements are owed and the list has as many less, unless it has not so many |
| TlvReader.Reader.ReadString | modules/rust/sml/src/tlv.rs:45-54 | the whole string, into a buffer of its size only |
| TlvReader.Reader.Into | modules/rust/sml/src/tlv.rs:87-109 | the bytes of a value of a fitting length; the handle is used up in any case |
| TlvReader.Reader.Use | modules/rust/sml/src/tlv.rs:224-312 | any operation on polled input: what is observed is what the trees hold, and the place where the data ends stays |
| Values.ExtendKeepsValue | modules/rust/sml/src/tlv.rs:94-103 | filling up with zeroes or the sign does not change the number |
| Values.NumbersAreExact | modules/rust/sml/templates/messages.rs:299-321 | for 1 to 8 bytes exactly one variant matches, in whatever order the arms stand, and it decodes to the number that the bytes stand for |
| Values.NoOtherNumbers | modules/rust/sml/build.rs:192-207 | no other length matches a number variant |
| Values.ValueBound | modules/rust/sml/src/lib.rs:105-117 | the number lies in the range of its width |
| Values.ValueExactly | modules/rust/sml/src/tlv.rs:87-109 | of the numbers in the range the value is the one that equals the bytes up to multiples of the modulus |
| Values.MinusOne | modules/rust/sml/src/tlv.rs:87-109 | a signed byte FF is -1 |
| Consumer.NextOf | modules/rust/sml/src/tlv.rs:196-208 | the next element if it has the type, else the error that the tree calls for |
| Consumer.NextOptOf | modules/rust/sml/src/tlv.rs:210-222 | the same with an empty string standing for absence |
| Consumer.SkipFields | modules/rust/sml/templates/messages.rs:15-18 | passing over fields; none are not asked for |
| Fields.Field.Parse | modules/rust/sml/templates/messages.rs:115-128 | opens the field once; a choice must have two elements; a second attempt is refused and consumes nothing |
| Fields.Field.Finish | modules/rust/sml/templates/messages.rs:130-136 | afterwards the list is exactly past the field, opened or not |
| Meter.TakeValue | modules/rust/sml/templates/messages.rs:299-321 | the number that an item stands for, or that it is none |
| Meter.Choice.ReadTag | modules/rust/sml/templates/messages.rs:253-260 | the tag of a choice; a second reading of the same choice is refused and consumes nothing |
| Meter.ReadEntry | modules/rust/smartmeter/src/lib.rs:77-96 | name, scaler and value of an entry, as the function on its trees says, with everything else in it dropped |
| Callbacks.Callback.OnFrameStart | modules/rust/smartmeter/src/lib.rs:60-63 | forgets both readings |
| Callbacks.Callback.OnFrameFinished | modules/rust/smartmeter/src/lib.rs:129-153 | reports both readings if the frame was valid and both are there, and then forgets them |
| Callbacks.Callback.TakeEntry | modules/rust/smartmeter/src/lib.rs:97-121 | takes an entry into account as `Collect` says; a second reading of a kind is refused |
| Callbacks.Callback.LookThrough | modules/rust/smartmeter/src/lib.rs:77-121 | going through a list in use collects what the function on its trees collects |
| Callbacks.Callback.OnMessageReceived | modules/rust/smartmeter/src/lib.rs:65-127 | what a callback makes of a body is what it makes of the body's trees, and it leaves the data's end where it was; on malformed data too, where the cursor stands and what is collected or observed are given |
| Readings.CollectsExactly | modules/rust/smartmeter/src/lib.rs:97-121 | the store gains exactly the readings named in the entries, each kind at most once |
| Readings.TakesExactly | modules/rust/smartmeter/src/lib.rs:77-121 | entries are taken if and only if all of them can be read and each of the two readings comes at most once |
| Readings.OtherNamesIgnored | modules/rust/smartmeter/src/lib.rs:69-121 | an entry with any name but 1.0.16.7.0.255 and 1.0.1.8.0.255 changes neither reading |
| Readings.LongNamesIgnored | modules/rust/smartmeter/src/lib.rs:77-85 | names of eight bytes and more are passed over with all behind them, and no others |
| Readings.ReadingsAreNaturals | modules/rust/smartmeter/src/lib.rs:97-119 | what is made of an entry with one of the two names: refused unless its value is a natural number of 64 bits and the reading has not come yet |
| Readings.OtherKinds | modules/rust/smartmeter/src/lib.rs:72-126 | a body of another known kind is accepted and carries no reading, one of an unknown kind is refused |
| Readings.NumbersAreValues | modules/rust/sml/templates/messages.rs:299-321 | exactly the signed and unsigned items of one to eight bytes are numbers, with the number they stand for |
| Readings.OthersAreNone | modules/rust/sml/templates/messages.rs:299-321 | what is read as a value without being a number |
| Messages.HeadIsGrammar | modules/rust/sml/src/frame.rs:302-316 | reading a message field by field up to its body accepts exactly what the grammar of a message does |
| FrameRuns.HeadStepExact | modules/rust/sml/src/frame.rs:302-315 | the steps up to the body succeed if and only if a message head follows, and lead to its body |
| FrameRuns.TailStepExact | modules/rust/sml/src/frame.rs:321-333 | the steps after the body succeed if and only if two elements are left, check value and end marker follow, and the value is that of all bytes of the message before it |
| ReadFrame.ReadHead | modules/rust/sml/src/frame.rs:302-315 | reads up to the body as these steps say, errors included |
| ReadFrame.ReadBody | modules/rust/sml/src/frame.rs:316-320 | succeeds if and only if the body parses and the callback accepts its trees; whatever the callback left is skipped |
| ReadFrame.ReadTail | modules/rust/sml/src/frame.rs:321-333 | reads the end of a message as the steps say, errors included, the check value being compared with that of the bytes since the message began |
| ReadFrame.ReadMessage | modules/rust/sml/src/frame.rs:299-337 | reads one message if and only if it is acceptable, and keeps count of spare elements; otherwise whether the callback got it, and where reading stops |
| ReadFrame.ReadMessages | modules/rust/sml/src/frame.rs:297-340 | reads on until the frame has ended or fails; after how many messages and where in the stream, on any payload; if the source fails, what was heard and observed is a beginning of that |
| ReadFrame.ReadFrame | modules/rust/sml/src/frame.rs:286-340 | succeeds if and only if the frame is valid and its payload a run of acceptable messages; the callback got each once and in order, and exactly the frame's raw bytes are consumed; otherwise the error, what was heard and how far the stream was read depend on stream and callback only; if the source fails, then before the end of the frame, with the driver's error, and a beginning of that was heard; with enough answers of the driver it does not fail |
| FrameRuns.RunGoesOn | modules/rust/sml/src/frame.rs:297-340 | what has been heard and observed up to some message is a beginning of what the whole frame gives |
| MessageLists.ChecksOf | modules/rust/sml/src/frame.rs:297-336 | in accepted data each check value is that of all bytes since the message before; it is preceded by spare elements if and only if that message announced more than six |
| MessageLists.EachCoversItself | modules/rust/sml/src/frame.rs:297-336 | the check values of a payload cover exactly their own messages if and only if every message but the last has announced six elements |
| MessageLists.WholeUnlessLeftOver | modules/rust/sml/src/frame.rs:297-337 | accepted data consists of complete message lists if and only if nothing is left over at its end |
| MessageLists.WholeIfLastHasSix | modules/rust/sml/src/frame.rs:297-337 | an accepted payload consists of complete message lists if and only if its last message has announced six elements |
| Sending.TreesRoundTrip | modules/rust/sml/src/tlv.rs:333-373 | trees with lists of at most 15 elements are parsed as they were written |
| Sending.MessageRoundTrip | modules/rust/sml/src/frame.rs:302-333 | a message is read as it was written, whatever more than six elements its header announces and whatever its check value |
| Sending.AcceptAfterSpare | modules/rust/sml/src/frame.rs:299-336 | a message behind spare elements is accepted if and only if its check value is that of these and its own bytes together, and the callback accepts its body |
| Sending.MessagesAccepted | modules/rust/sml/src/frame.rs:299-339 | written messages are accepted if and only if the callback accepts each body, in order |
| SpareElements.TruncatedAccepted | modules/rust/sml/src/frame.rs:297-339 | a message whose header announces 6 to 15 elements, with six there, is accepted like one of six; it is a complete list only with six |
| SpareElements.SpareAccepted | modules/rust/sml/src/frame.rs:297-339 | two messages with spare elements in between are accepted if and only if the second check value covers the spare elements too, and the callback accepts both bodies |
| SpareElements.StraddlingAccepted | modules/rust/sml/src/frame.rs:297-339 | payloads that are accepted although a check value does not cover its own message alone |
| SpareElements.RightlyCheckedRefused | modules/rust/sml/src/frame.rs:297-339 | with its own right check value the second message is accepted if and only if the spare elements leave the check register unchanged, which none with an odd number of one bits do |
| SpareElements.EmptyStringSpare | modules/rust/sml/src/frame.rs:297-339 | one empty string to spare is enough for the next, correctly checked message to be refused |
| Sending.FrameDelivered | modules/rust/sml/src/frame.rs:286-340 | the same from the raw stream, for messages put into one frame |
| Sending.EndToEnd | modules/rust/sml/src/frame.rs:286-340 | a callback that replies `Ok`, however it chooses its operations, is given each message once and in order and observes the trees that were sent |
| Task.ReadRound | modules/rust/sml/src/lib.rs:160-172 | one frame, from the callback's start to its end: the calls are those of a round that is faithful to the stream; it comes to its end even if the driver reports a fault, unless the run is cut off; a well-formed frame is not disturbed by a driver that answers often enough |
| Task.Task | modules/rust/sml/src/lib.rs:155-173 | every run is a chain of rounds, each faithful to the stream from its start marker on: the verdict, the messages heard and the position reached are those that stream and callback determine, and a beginning of these messages if the source fails; the run goes on after a failure within a frame, and ends with the first one between two frames, whose error is returned; with a driver that reports no fault and answers often enough it goes through the whole stream |
| Task.SameRound | modules/rust/sml/src/lib.rs:160-172 | from a position on there is only one round in which the source does not fail |
| Task.SameRounds | modules/rust/sml/src/lib.rs:155-173 | two runs over the same stream, however it arrives, consist of the same rounds as long as the source does not fail |
| Delivery.FrameReceived | modules/rust/sml/src/lib.rs:160-172 | an undisturbed round that begins anywhere before a frame's marker begins to read there if and only if the bytes in between do not lead into the second half of a marker, and then receives the frame |
| Delivery.ReceivedExactly | modules/rust/sml/src/lib.rs:155-173 | in a run over any stream, the frames received are those whose marker is reached from where a round begins |
| Delivery.MarkerAfterBrokenOff | modules/rust/sml/src/frame.rs:159-241 | behind a frame broken off between two blocks the next marker is found if and only if reading has given up on the messages before, and the rest of the frame does not hide it |
| Delivery.RoundDelivers | modules/rust/sml/src/lib.rs:160-172 | where noise, a start marker and a frame of messages follow, an undisturbed round receives exactly that frame |
| Delivery.RunDelivers | modules/rust/sml/src/lib.rs:155-173 | over a stream of such frames every undisturbed run receives each of them in one round, in order |
| Delivery.AllDelivered | modules/rust/sml/src/lib.rs:155-173 | every run that goes through the whole stream does so, whatever follows the frames |
| Task.CallsInOrder | modules/rust/sml/src/lib.rs:160-172 | in every run the calls keep the cyclic order, with a report only at the end of a valid frame |
| Reports.CollectsFrame | modules/rust/smartmeter/src/lib.rs:65-127 | after the messages of a frame the store holds exactly the readings in their bodies |
| Reports.MeterForgets | modules/rust/smartmeter/src/lib.rs:60-63 | whether a frame is accepted does not depend on anything before it |
| Reports.ReportsExactly | modules/rust/smartmeter/src/lib.rs:129-153 | a report is made exactly for a valid frame with both readings, and consists of the one reading of each kind in that frame |
| MeterDelivery.MeterAccepts | modules/rust/smartmeter/src/lib.rs:65-127 | the meter's callback accepts sent messages if and only if it understands all of them and each reading comes at most once |
| MeterDelivery.MeterReports | modules/rust/smartmeter/src/lib.rs:60-153 | what is sent is reported: a frame whose marker is found leads to a report if and only if its messages are understood and carry one reading of either kind |
| MeterDelivery.SampleReported | modules/rust/smartmeter/src/lib.rs:65-153 | for any scalers and any unsigned numbers of one to eight bytes, a message with entries for the registers 1.0.16.7.0.255 and 1.0.1.8.0.255 leads to the report of these |
| MeterDelivery.SampleInNumbers | modules/rust/smartmeter/src/lib.rs:65-153 | one such message with the report it leads to, in literal numbers |

## Left out

- Counters of what is owed are natural numbers: the overflow of `remaining_bytes`, `remaining_tlvs` and the counter of `skip_tlvs` beyond the machine word is not modelled. Lengths in headers do wrap, at the 32-bit word of the target (modules/rust/CMakeLists.txt:6).
- Task.Task: a run in which the source stays pending for ever is modelled by one that is cut off; that the driver answers often enough is a condition, `Io.Enough`, and not claimed.
- Callbacks.Callback.OnMessageReceived: a callback other than the meter's performs a bounded number of operations in a message, the bound being arbitrary; it passes over the errors `EndOfList`, `WrongBufferSize` and `UnsupportedLen` and passes on all others; one that goes on after a reading or header error is not modelled.
- Cursors.RunKeepsLand: handles that are leaked instead of dropped are not modelled.
- Schema: the specification and what `build.rs` extracts from it are not part of this model; the tags and field indices that the meter's callback depends on are parameters, and only the fields of list responses and their entries are modelled.
- Io.Source.PollRead: wakers, pinning and the C boundary are left out; a source that returns 0 bytes for a non-empty buffer, which capi.rs excludes, is not modelled.
- The internals of the `crc` crate are replaced by a bitwise fold.
- Logging is left out.
- `into_64_relaxed` and `into_u64_relaxed` of values, and booleans as numbers, would only add simple members.
