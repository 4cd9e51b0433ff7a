# A verified model of the wire core of py-amqp

This project models, in Dafny, what lies between a typed AMQP 0-9-1 method call and the octets on the
socket, in both directions, and the small state machines beside it, and proves properties of them for
every input, every run or every reachable state.

| file | what it models |
|---|---|
| `Octets.dfy` | results, big-endian words, Python slices, bit operations, text as its UTF-8 octets |
| `Texts.dfy` | UTF-8 with surrogates, and which octets are a str |
| `Floats.dfy` | IEEE 754 words of double and single precision, and the conversions between them |
| `Tables.dfy`, `TableProofs.dfy` | field values, tables and arrays: encoder, decoder, what a peer reads back |
| `Meaning.dfy`, `ArgumentMeaning.dfy` | the same values and arguments in plain terms: which can be written, how each tag is read, and what is kept of them |
| `Arguments.dfy`, `ArgumentProofs.dfy` | method arguments under a format string, with runs of bits sharing octets |
| `Codec.dfy` | the loops of `dumps`, `loads`, `_write_*` and `_read_item`, proved to compute the functions above |
| `Properties.dfy` | property flags and list: the generic serializer and the unrolled decoder |
| `Frames.dfy`, `Transport.dfy` | frames, the plain parse of a stream, and the resumable reader over a socket |
| `FrameHandler.dfy` | reassembly of messages from interleaved frames |
| `FrameWriter.dfy` | the fast and the slow path of the frame writer, with its reused buffer |
| `Loopback.dfy`, `Client.dfy` | writer, socket, reader and handler put together; the reading loop of a connection |
| `Heartbeat.dfy` | heartbeats sent and a dead peer noticed, under real time |
| `Channels.dfy` | channel ids, claimed, freed and leaked |
| `Waits.dfy` | nested `wait` calls and `dispatch_method` |

The code that computes by changing things is modelled by methods and classes, each proved against a
function that says what it computes; the theorems are about those functions. `Err` stands for an exception.

## What turned out

Several properties one might expect hold only under a condition, which is stated and proved to be exact.

- A format string gives back everything packed under it if and only if it is `GoodFormat`: no unknown
  character, no `T` while bits are pending (`dumps` does not write them first), and no bit directly after
  an `x` that broke an octet of bits (`loads` keeps the rest of that octet).
- A field value comes back as itself if and only if it is `Normal`: bytes that happen to be UTF-8 come back
  as text, decimals lose trailing zeros, times lose microseconds. Any other value comes back as `Reread` says.
- Properties come back as they were set if and only if they are `AllFaithful`: text under the names of short
  strings, whole numbers under those of numbers, and a normal table of headers. A content type given as bytes
  comes back as text.
- A float comes back from format `f` as itself if and only if it is the double of some single; any other finite
  one comes back as the double of the nearest single, or cannot be packed.
- A message is delivered if and only if it is `Deliverable`: on the slow path an empty body loses the content
  header, and frames of at most eight octets lose the body.
- A method without content is never size-checked: it is written if and only if it fits the frame size the buffer
  was made for, the present one, or that of an earlier call that took the fast path. Frame sizes that saw only
  calls on the slow path do not count, for only the fast path makes the buffer larger.
- The frames of a message stay within the negotiated size if and only if those of its method and its content
  header do, for only the body is ever split.
- A timeout loses nothing; any other error during `read_frame` loses octets if and only if the frame header had
  been read. With `ENOENT` on TCP the transport still counts as connected.
- A wait leaves its methods as it found them if and only if none is listed twice, whatever is nested in it.
- A channel close that is not answered keeps the channel's id in use, whatever is done afterwards, until the
  connection is collected.
- Because a tick that sees a write re-arms the timer, the line can be silent for heartbeat / rate + 2d, not
  only heartbeat / rate + d, when ticks are d apart; the bound is reached for every interval, rate and d.

Where code and comments differ, the model follows the code: `_read_item` reads tag `b` unsigned and `B`
signed, the reverse of its comments (amqp/serialization.py:59-66).

## Model

| member | source | states |
|---|---|---|
| Octets.NumberOfBigEndian | amqp/serialization.py:33-144 | a packed big-endian word is unpacked as the same number, for every width |
| Octets.NumberFirst | amqp/serialization.py:33-144 | the first octet of a word is the most significant |
| Octets.SignedRange | amqp/serialization.py:59-90 | a signed word lies around zero and differs from the unsigned one by the whole range or not at all |
| Octets.SliceContents | amqp/serialization.py:33-57 | a slice that would pass the end of the buffer is what is left of it |
| Octets.GetSetBit | amqp/serialization.py:277-284 | or-ing in one bit sets that bit and leaves every other as it was |
| Octets.ShiftDivides | amqp/serialization.py:205-213 | shifting right divides by a power of two, rounding down |
| Texts.TextExactly | amqp/serialization.py:303-312 | the octets taken for text are exactly the UTF-8 encodings of code points, surrogates included |
| Texts.EncodeDecode | amqp/serialization.py:303-312 | a str encoded is decoded as itself, so a str may stand for its octets |
| Tables.DecodeItem | amqp/serialization.py:33-144 | on any octets the decoder fails or strictly advances, so its nested loops end, even when a declared length runs past the buffer |
| Floats.NarrowWiden | amqp/serialization.py:297-299 | a float unpacked from a single is packed as the very same octets, subnormals and infinities included, unless it is a signalling NaN |
| Floats.NarrowExactly | amqp/serialization.py:297-299 | a float packed under `f` comes back as itself exactly if it is the double of some single |
| Floats.NarrowNearest | amqp/serialization.py:297-299 | any other finite float that can be packed becomes a single of its sign to which none is nearer |
| Floats.RoundTie | amqp/serialization.py:297-299 | halfway between two singles the even one is taken |
| Floats.NarrowOverflows | amqp/serialization.py:297-299 | what cannot be packed is exactly what lies half a step past the greatest single or further, short of infinity |
| Floats.NotFinite | amqp/serialization.py:297-299 | infinities and NaNs stay what they are both ways, with their sign |
| TableProofs.ItemRoundTrip | amqp/serialization.py:327-394 | whatever surrounds it, an encoded value is read back as `Reread` says and the reading stops exactly at its end, failing only where `Reread` fails |
| TableProofs.EntriesRoundTrip | amqp/serialization.py:106-117 | the length loop of a table ends exactly on its limit, with keys in order and repeated keys overwritten |
| TableProofs.ItemsRoundTrip | amqp/serialization.py:118-126 | the length loop of an array ends exactly on its limit |
| TableProofs.ValueRoundTrip | amqp/serialization.py:359-394 | a value comes back as itself exactly if it is normal: keys distinct text, no octets that are text, no trailing zeros, whole seconds |
| TableProofs.Normalisation | amqp/serialization.py:33-144 | re-encoding whatever was decoded from any octets, and decoding again, gives the same value up to octets that are text |
| TableProofs.DecodeNormal | amqp/serialization.py:99-117 | every value the decoder builds has distinct text keys, reduced decimals and whole seconds |
| TableProofs.RereadNormal | amqp/serialization.py:359-394 | whatever comes back from an encoding comes back unchanged from then on |
| TableProofs.IntegersRead | amqp/serialization.py:59-90 | an integer under any of the eight integer tags is read as itself, with the width and sign each tag has |
| TableProofs.IntegersWritten | amqp/serialization.py:369-373 | exactly the 64-bit integers can be written, and which of them in five octets |
| Meaning.EncodableExactly | amqp/serialization.py:327-394 | exactly which values can be written, nested ones included, and in how many octets |
| Meaning.RereadSame | amqp/serialization.py:33-144 | what comes back is the same: same text, number, second, items and, under every key in order of first appearance, the value last given; exactly what holds a key that is not text cannot be read |
| Meaning.SetEntryAssigns | amqp/serialization.py:106-117 | assigning to a key of a table changes its value alone and keeps its place, or adds it at the end |
| Meaning.QuotientValue | amqp/serialization.py:99-105 | a decimal is the number written divided by its power of ten, exactly, with no more places |
| Meaning.DecimalRead | amqp/serialization.py:99-105 | tag `D` is read as the reduced decimal of that value |
| Meaning.StringRead | amqp/serialization.py:37-57 | tags `S` and `x` are read as text or octets of the given length, or of what is left of the buffer |
| Meaning.ShortStringRead | amqp/serialization.py:44-50 | tag `s` is read as text, or raises |
| Meaning.BoolRead | amqp/serialization.py:127-130 | tag `t` is read as true unless its octet is 0 |
| Meaning.WordRead | amqp/serialization.py:91-135 | tag `d` is read as a float, `T` as a time up to the end of the year 9999 |
| Meaning.SingleRead | amqp/serialization.py:91-94 | tag `f` is read as the double of a single |
| Meaning.OtherRead | amqp/serialization.py:136-144 | tag `V` is None in no octets, and any tag but the nineteen raises |
| Meaning.LastItem | amqp/serialization.py:118-126 | an array ends with the item that reaches its declared length, even past it |
| Meaning.LastEntry | amqp/serialization.py:106-117 | so does a table with its entry |
| Arguments.AddBitKeeps | amqp/serialization.py:278-284 | packing one more bit keeps the earlier ones and appends it, low bit first |
| Arguments.ArgRoundTrip | amqp/serialization.py:285-321 | each argument other than a bit is read back, and exactly consumed, wherever it stands |
| ArgumentMeaning.TruthyExactly | amqp/serialization.py:279 | what counts as false is None, False, zero, and whatever is empty |
| ArgumentMeaning.IntOfValue | amqp/serialization.py:290 | `int()` keeps whole numbers, makes 0 or 1 of truth values and cuts floats and Decimals off toward zero |
| ArgumentMeaning.FaithfulExactly | amqp/serialization.py:147-324 | for every format character exactly which values it gives back as they were |
| ArgumentMeaning.WritableExactly | amqp/serialization.py:285-321 | for every format character exactly which values can be packed under it |
| ArgumentMeaning.LegibleExactly | amqp/serialization.py:147-244 | for every format character exactly which values can be read back |
| ArgumentMeaning.FalsyWritten | amqp/serialization.py:300-319 | whatever counts as false is packed as an empty string, table or array |
| ArgumentProofs.RunOctets | amqp/serialization.py:278-284 | n consecutive bits take exactly n / 8 octets, rounded up, low bit first |
| ArgumentProofs.PackedBools | amqp/serialization.py:278-284 | of truth values packed on their own, bit k of the octets is the k-th, low bit first |
| ArgumentProofs.PackedExactly | amqp/serialization.py:254-324 | arguments can be packed exactly if there is a format character for each, which can pack it if it is known; format characters to spare are left alone |
| ArgumentProofs.FormatRoundTrip | amqp/serialization.py:147-244 | under a good format, arguments packed between any octets are unpacked, ending exactly at their end |
| ArgumentProofs.FormatRoundTripExactly | amqp/serialization.py:247-324 | a format gives back everything packed under it if and only if it is good |
| ArgumentProofs.TimeOvertakes | amqp/serialization.py:320-321 | whatever the values, a time that follows pending bits is written as if it stood before all of them |
| Codec.WriteItem | amqp/serialization.py:359-394 | appends exactly the encoding, or raises exactly where there is none |
| Codec.WriteTable | amqp/serialization.py:327-342 | the loop and its nested buffer append the length and the entries in order |
| Codec.WriteArray | amqp/serialization.py:345-356 | the loop and its nested buffer append the length and the items in order |
| Codec.ReadItem | amqp/serialization.py:33-144 | computes the decoding of one item |
| Codec.ReadTable | amqp/serialization.py:214-225 | the loop over offsets computes the decoding of a table |
| Codec.ReadArray | amqp/serialization.py:226-234 | the loop over offsets computes the decoding of an array |
| Codec.FlushBits | amqp/serialization.py:247-251 | writes the pending bits, empties the list and resets the count |
| Codec.Dumps | amqp/serialization.py:254-324 | the loop with its pending bits packs the arguments |
| Codec.Loads | amqp/serialization.py:147-244 | the loop with its leftover bits unpacks the arguments |
| Properties.FlagBits | amqp/serialization.py:536-555 | flag bit 15 - i is set if and only if property i is present, and the two lowest bits never are |
| Properties.PropertyOrder | amqp/basic_message.py:86-101 | the fourteen names in their order, with their formats |
| Properties.PropertiesWritten | amqp/serialization.py:529-562 | properties can be serialized exactly if each value present can be packed under its format |
| Properties.PropertiesLegible | amqp/serialization.py:397-466 | what was serialized can be read back exactly if each value can |
| Properties.PropertiesRoundTrip | amqp/serialization.py:397-466 | the unrolled decoder consumes exactly what the generic serializer wrote and returns what `RereadProperties` says |
| Properties.RereadContents | amqp/basic_message.py:86-101 | the properties that come back are those present, each under its own name with its own value, and no others |
| Properties.PropertiesExactly | amqp/serialization.py:397-466 | the properties that come back are exactly those set, with equal values, if and only if every value is text, a whole number or a normal table, as its property demands |
| Properties.SerializeProperties | amqp/serialization.py:529-562 | the generic flag loop writes the flag word and the list of the properties present |
| Properties.DecodePropertiesBasic | amqp/serialization.py:397-466 | the fourteen branches decode flags and list |
| Frames.ParseFrameOctets | amqp/transport.py:282-346 | a written frame is parsed back, whatever follows it |
| Frames.FrameLayout | amqp/method_framing.py:133-151 | type, channel, size, payload, 206, in that order |
| Frames.ParseExactly | amqp/transport.py:282-346 | a frame has come when its size says so, and is good exactly if it ends with 206 |
| Frames.WireArrives | amqp/transport.py:282-346 | frames written one after the other are parsed back one by one |
| Transport.ReadConserves | amqp/transport.py:625-647 | a read takes n octets off the front of the unread stream, or raises and takes none |
| Transport.ReadFrameConserves | amqp/transport.py:294-343 | a call hands over the first frame of the unread stream; a timeout anywhere loses nothing; any other error loses octets exactly if the header had been read |
| Transport.RunIsPlainParse | amqp/transport.py:282-346 | over any run of calls, fragments and timeouts, the frames handed over are the beginning of the plain parse of the stream, and the octets still unread are exactly those behind them |
| Transport.RunCompletes | amqp/transport.py:282-346 | with nothing but data, interruptions and timeouts, enough calls hand over every frame |
| Transport.HeaderLost | amqp/transport.py:321-340 | after ENOENT behind a header, on TCP, the header is gone while the transport counts as connected |
| Transport.ReadsAsAwaited | amqp/transport.py:282-346 | with its buffers, partial reads and pushback, `read_frame` ends exactly as a reader that keeps whatever comes in one piece: the frame, a timeout, a closed connection, or the error |
| Transport.DisconnectsExactly | amqp/transport.py:338-340 | the transport stops counting as connected exactly when the peer has closed, or at an error other than EAGAIN, EINTR, ENOENT and EWOULDBLOCK |
| Transport.PassedOver | amqp/transport.py:567-647 | which errors TCP and SSL pass over |
| Transport.SocketTransport.Read | amqp/transport.py:625-647 | the receiving loop, for TCP or SSL, as `TakeOctets` says |
| Transport.SocketTransport.GiveBack | amqp/transport.py:318-340 | what is pushed back, what becomes a timeout, and what ends the connection, as `GiveUp` and `Disconnects` say |
| Transport.SocketTransport.ReadFrame | amqp/transport.py:282-346 | reads one frame as `TakeFrame` says, payloads over 2^31 - 1 in two parts, and ends as `Await` says |
| FrameHandler.NonInterference | amqp/method_framing.py:31-81 | in any interleaving, the outcomes on a channel and its final state are those of its own frames alone |
| FrameHandler.Reassembly | amqp/method_framing.py:45-77 | in every reachable state a partial message holds exactly the frames accepted since the channel was idle, less body than announced; every callback delivers those frames' method, properties and joined body |
| FrameHandler.StepFollows | amqp/method_framing.py:34-81 | one frame keeps that invariant, and what it delivers is complete |
| FrameHandler.OutOfTurn | amqp/method_framing.py:37-42 | exactly the frames out of turn are rejected, without effect; heartbeats have none |
| FrameHandler.MethodArrives | amqp/method_framing.py:43-55 | a method is called back at once, but Basic.Return, Basic.Deliver and Basic.GetOk wait for a header |
| FrameHandler.HeaderArrives | amqp/method_framing.py:57-69 | a header gives size and properties; without a body the message is called back |
| FrameHandler.HeaderBreaks | amqp/serialization.py:564-570 | a header of another class, or whose properties cannot be read, raises |
| FrameHandler.BodyArrives | amqp/method_framing.py:70-77 | a message is called back with its joined body as soon as that is as long as announced |
| FrameHandler.Message.InboundHeader | amqp/serialization.py:564-570 | sets size and properties; ready at once exactly for an empty body |
| FrameHandler.Message.InboundBody | amqp/serialization.py:572-584 | ready exactly when the pieces reach the announced size, the body then being their concatenation |
| FrameHandler.Handler.OnFrame | amqp/method_framing.py:34-81 | the closure does one step of the handler, counts the frame, and has reset the channel before the callback |
| FrameWriter.FastRefinesSlow | amqp/method_framing.py:130-186 | for a message with a body that fits, the fast path writes the frames of the slow path |
| FrameWriter.FastLength | amqp/method_framing.py:22-25 | the fast path fills at most the length it was chosen by, exactly that for a method with a body |
| FrameWriter.OneWrite | amqp/method_framing.py:157-186 | a message with arguments, properties, body and 40 octets in a frame less eight goes out with its header in one write |
| FrameWriter.ManyWrites | amqp/method_framing.py:130-151 | any other goes out frame by frame, and without a body only as a method |
| FrameWriter.HeaderLayout | amqp/method_framing.py:138-141 | class, weight 0, size of the body, properties |
| FrameWriter.BodySplit | amqp/method_framing.py:146-151 | body pieces of 1..chunk octets, as many as the rounded-up quotient, joined giving the body |
| FrameWriter.SlowLength | amqp/method_framing.py:130-151 | the octets of the slow path: 32, the contents, and eight for each piece |
| FrameWriter.WithinFrameMax | amqp/method_framing.py:130-151 | the frames of a message are no larger than the frame size exactly if 12 + arguments and, where there is a body, 20 + properties are not |
| FrameWriter.NoOverflow | amqp/method_framing.py:157-186 | with a buffer no smaller than a frame, a message on the fast path never overflows it |
| FrameWriter.GrownTo | amqp/method_framing.py:157-158 | after any calls the buffer is as large as at first, or as the largest frame size of a call that took the fast path |
| FrameWriter.UncheckedMethod | amqp/method_framing.py:127-128 | after any calls, a method without content is written exactly if it fits the first frame size, the present one, or that of an earlier call that took the fast path |
| FrameWriter.RunWriter | amqp/method_framing.py:111-188 | over any run of calls with the frame size raised and lowered in between, the results, the writes and the size of the buffer are those of `ResultAll`, `WriteAll` and `GrownAll` |
| FrameWriter.WritesAreFrames | amqp/method_framing.py:111-188 | whichever path a call takes, what is written is its frames |
| FrameWriter.Link.OnTune | amqp/connection.py:428 | the frame size changes to what the peer asks, unless that is 0 |
| FrameWriter.Writer.PackInto | amqp/method_framing.py:165-184 | packs one frame behind what is in the buffer, or raises if it does not fit |
| FrameWriter.Writer.WriteSlow | amqp/method_framing.py:130-151 | one write a frame, up to the first that cannot be packed |
| FrameWriter.Writer.WriteFast | amqp/method_framing.py:161-186 | one write of all frames, or none, whatever the buffer held before |
| FrameWriter.Writer.WriteFrame | amqp/method_framing.py:111-188 | result, writes, counter and size of the buffer after a call, from any buffer and any frame size |
| Loopback.DeliveredExactly | amqp/method_framing.py:130-151 | a message arrives exactly if it takes the fast path, or has a body and frames of more than eight octets; a method without content leads to its callback, a heartbeat to none |
| Loopback.HandledInOrder | amqp/method_framing.py:34-81 | the frames of any messages, methods and heartbeats on any channels lead to one callback a message or method, in order, and leave every channel idle |
| Loopback.AllWritten | amqp/method_framing.py:109-188 | however the frame size is raised or lowered in between, all calls succeed if and only if their frames fit, of which only methods without content and heartbeats can fail for the frame size, and what is written is their frames one after the other |
| Loopback.DeliveredUnchanged | amqp/serialization.py:397-466 | what is delivered has equal properties too exactly if all their values are faithful |
| Loopback.EndToEnd | amqp/transport.py:282-346 | messages, methods and heartbeats written, cut up, interrupted and delayed in any way lead to one callback for each message and method, in order, with equal method, arguments and body; and with equal properties exactly if all their values are faithful |
| Client.Connection.BlockingRead | amqp/connection.py:529-532 | one read takes one outcome off everything still to come, and a timeout takes none |
| Client.Connection.DrainEvents | amqp/connection.py:524-527 | the loop ends at the first callback or error, having taken exactly the outcomes up to it |
| Heartbeat.Heartbeats.HeartbeatTick | amqp/connection.py:715-776 | the fields after a tick, whether it sends and whether it raises |
| Heartbeat.TickIdle | amqp/connection.py:732-733 | without heartbeats a tick does nothing |
| Heartbeat.TickSends | amqp/connection.py:739-768 | a tick sends exactly if more than heartbeat / rate has passed since a write was last noticed; a heartbeat sent counts as a write and its time is taken down |
| Heartbeat.TickRaises | amqp/connection.py:740-776 | a tick raises exactly if more than twice the interval has passed since an arrival was last noticed |
| Heartbeat.Kept | amqp/connection.py:739-776 | over any run of writes, arrivals and ticks: how far the timers lag behind the last write and arrival |
| Heartbeat.SilenceBound | amqp/connection.py:739-768 | with ticks at most d apart, the line is never silent for longer than heartbeat / rate + 2d |
| Heartbeat.SilenceReached | amqp/connection.py:742-768 | that bound is reached, for every interval, rate and d |
| Heartbeat.RaisesOnlyIfDead | amqp/connection.py:770-776 | a tick raises only after more than twice the interval without an arrival |
| Heartbeat.DeadIsRaised | amqp/connection.py:770-776 | with ticks at most d apart, a peer silent for more than 2 heartbeat + 2d has been given up |
| Heartbeat.DeadReached | amqp/connection.py:770-776 | that bound is reached, for every interval, rate and d |
| Channels.WithoutKeeps | amqp/channel.py:164-169 | freeing an id removes it and keeps the others without duplicates |
| Channels.Connection.GetFreeChannelId | amqp/connection.py:485-496 | allots the least free id of 1..channel_max, and refuses exactly if all are used |
| Channels.Connection.ClaimChannelId | amqp/connection.py:498-503 | claims an id exactly if it is free and fits |
| Channels.Connection.GetChannel | amqp/connection.py:505-519 | under 0 the connection itself, an open channel as it is; a new one takes its id, the least free one up to channel_max if none is given, into the map and the used ids, and is refused exactly if all are used or the id does not fit |
| Channels.Connection.Collect | amqp/connection.py:469-483 | every channel lets go and the map is gone |
| Channels.Channel.Collect | amqp/channel.py:154-173 | frees the channel's own id once; a second time changes nothing |
| Channels.Channel.Close | amqp/channel.py:226-242 | the id is freed exactly if the close was sent and answered |
| Channels.Leaked | amqp/channel.py:226-242 | after an unanswered close the id stays in use over any further run, until the connection is collected |
| Channels.Run | amqp/connection.py:485-519 | over any run of operations the used ids are, without duplicates, the keys of the channel map, and a channel that had let go of the connection keeps its id in use |
| Waits.RestoresExactly | amqp/abstract_channel.py:86-113 | whatever happened meanwhile, a wait restores its methods if and only if none is listed twice |
| Waits.DuplicateLeaks | amqp/abstract_channel.py:93-113 | under a method listed twice a wait leaves its own promise behind |
| Waits.KeepsWait | amqp/abstract_channel.py:86-113 | a wait adds or replaces nothing that outlasts it; what is gone was taken by a dispatch |
| Waits.DispatchOutcome | amqp/abstract_channel.py:115-162 | when a method is passed over, raises or finds nobody waiting, and when its reply is handed over |
| Waits.WaitAnswered | amqp/abstract_channel.py:86-113 | a wait returns if one of its methods is dispatched before anything raises, unless the channel was closing and passed it over |
| Waits.DrainedUntil | amqp/abstract_channel.py:97-101 | a wait drains events exactly as long as nothing raises, there are events, and it has not been answered |
| Waits.AbstractChannel.DispatchMethod | amqp/abstract_channel.py:115-162 | a reply goes to at most one promise, made for the method; without duplicates, that of the innermost wait for it; all else as `Dispatched` says |
| Waits.AbstractChannel.Wait | amqp/abstract_channel.py:86-113 | however a wait and the waits nested in it end, its methods are as it found them exactly if none is listed twice, and it returns only with a reply to one of them; all else as `Waited` says |

## Left out

- Socket setup, TLS, options and closing, and the writing side of a socket: a write is taken to succeed; a socket read is a sequence of events.
- SASL, capability negotiation, heartbeat negotiation, logging, warnings, and the promises of vine: a promise is a number and whether it has a reply.
- The command methods of a channel, which pass constant formats to `send_method`, and the revival of a channel closed by the peer.
- A str is identified with its UTF-8 octets, and a str or bytes dictionary key with its octets; Decimal infinities and NaNs, timezones, and Python's recursion limit are not modelled.
- Arguments.EncodeArg: does not model `int()` of a str or bytes under `B`, an iterable other than a list under `A`, or an int or Decimal under `f`; these are errors in the model.
- Arguments.ArgRoundTrip: says nothing of those arguments, which `Arguments.EncodeArg` does not model.
- Codec.Dumps: says nothing of them either.
- Floats.Widen: a signalling NaN keeps its bits, which hardware may change; `Floats.Narrow` makes it quiet.
- FrameWriter.Writer.WriteFrame: takes the body as octets; choosing a `content_encoding` for a str body and encoding it is not modelled. Heartbeats pass an empty method and arguments instead of None.
- Properties.SerializeProperties: has no second flag word, which the code starts only after fifteen properties; there are fourteen.
- FrameHandler.Handler.OnFrame: gives the callback back as its outcome instead of calling it, which it does last; a body of None or '' is no octets.
- Client.Connection.BlockingRead: the timeout put on the socket is not modelled; a timeout is one of the socket's events.
- Channels.Connection: the connection's own entry under 0 is implicit; the exchange of open and close methods is reduced to whether it was answered.
- Waits.AbstractChannel.Wait: what the drained events bring is a tree given beforehand; return values and arguments of listeners are not modelled.
