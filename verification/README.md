# The packet codec of libpueorawdata

This project models how libpueorawdata turns packets into bytes and back, and proves that it does
so without losing, inventing or mixing up anything, and that transmission errors show.

A packet is a C struct of one of the eighteen types of the dispatch table. A writer sends an
eight-byte header (type code, 16-bit checksum, 0xf1, version, 20-bit length) and then the used part
of the struct: all of it for the ten plain types, a counted array for six, and one or 224 waveforms
of clamped length for two. A reader takes the header, finds the type, reads a payload of whatever
version the header names, rebuilds the header from what is now in memory, and prints a message if
checksum or length disagree. The handle keeps a header that has been read ahead, a size that the
last attempt lacked, and the byte and packet counters; its bytes come from and go to a file or a
UDP socket, whose datagrams are buffered.

The modules follow the layers:

| module | what it is |
|---|---|
| `Crc` | the checksum table and loop, and the shift register of Appendix C.2 of RFC 1662 as reference |
| `Versions` | types, codes, versions and sizes |
| `Packets` | structs as bytes with named offsets, the header layout, wire images, header builders |
| `Layouts` | the declarations of all structs and versions, the rules of the ABI, and that these give the sizes and offsets of the other modules |
| `Reading`, `Writing` | each C function of the reading and the writing side as a function of the handle's state |
| `Grammar` | where a payload ends, read off the wire bytes alone; readers, writers and header builders agree with it |
| `Images` | wire images part by part: records, texts and channels, told from the fields of the struct |
| `Parts` | payloads that run over several datagrams: where each part can be had whole, reading them is reading a stream |
| `Contents` | which bytes of memory a read sets, and that they do not depend on what was there |
| `Frames` | frames are prefix-free; what runs of writes put out |
| `Streams` | what reading gives back, over files and datagrams |
| `Cuts` | what a reader makes of an event that was cut to fit a datagram |
| `Integrity` | migration of versions, detection of errors in single reads and in runs |
| `Vectors` | frames of real packets, byte by byte |
| `Runs` | failed attempts, reads of the wrong type, and the byte counter, over runs on arbitrary bytes |
| `Rawio` | the handle as a class: fields, transport buffer, destination arrays and accumulators updated in place, every method proved equal to the function of `Reading` or `Writing` |

`Rawio` is the program; `Reading` and `Writing` say what each of its steps does to the state; the
properties are proved about these. Structs are byte arrays of their in-memory size, with the
offsets of the System V x86-64 ABI. `Trap` stands for an assertion that fails or a count that
reaches past its array: the functions say so whenever the program stops or writes outside a struct.
A socket is the sequence of datagrams that arrive; a read that asks for one more waits in `recv`,
and its result is `Waiting`. The methods require that the call neither stops nor waits, and
`Streams.ValidSourceNeverTraps` shows when that is so at every point of a source of frames.

## Where the code does not do what one might expect

Each of these is proved, with the exact condition.

* **Reads leave old bytes behind.** In waveform packets these are the samples behind each channel's
  length, the padding at the end of a single waveform, and the fields that an old version does not send, except for
  readout_time, which version 0 zeroes; so versions 0 and 1 of a single waveform leave `prio` as it
  was. In log packets they are the two bytes of padding after the text. Everything else is set, to
  values that do not depend on the old memory (`Contents.ReadSets`, `Contents.ReadsAreIndependent`,
  `Contents.SetsAll`, `Contents.PrioShows`, `Contents.LogPaddingShows`).
* **Reads over UDP wait for the next packet** if theirs ends in a variable part of no bytes, such as an
  empty file: asking for no bytes at the end of a datagram receives the next one
  (`Streams.ReallocDelivers`, `Streams.EmptyFileEndsBare`).
* **Typed reads over UDP then lose step**: the datagram so received counts as one whose header has been
  read. The read itself is right, but the handle is ready for the next packet iff it read from a
  stream or the part was not empty (`Streams.TypedReadDelivers`, `Streams.StaleHeader`). Generic
  reads clear the mark and stay in step.
* **A datagram of fewer than eight bytes, or a file cut inside a header, stops generic reads for good**:
  the read that meets it between packets fails with -EIO (EOF if the datagram has no bytes), and all
  that follow it fail with -EIO, whatever arrives. The exact conditions are in `Streams.StuckForever`
  and `Streams.GetsStuck`; `Streams.AfterEof` is the case of no bytes. A file at its end reports EOF
  again and again.
* **`bytes_read` goes back by one** when waveforms are cut short, because the failure value -1 is added to
  it: by the end of a stream, or by the end of a datagram within a part. A read that returns counts
  exactly what it consumed in every other case, over both transports (`Runs.TypedReadConserves`,
  `Runs.GenericReadConserves`).
* **Version 1 of slow is laid out anew**: the other plain types grow by new fields behind the old ones,
  which keep their places, but the rates of version 0 of slow are read into the bytes where
  version 1 has an event count, an uptime and its own rates (`Layouts.VersionsGrow`,
  `Layouts.SlowFieldsMove`).
* **A full event can be larger than a datagram**: the frame is then cut at 65507 bytes, and the write
  still counts as a success (`Writing.WritesFrame`, `Writing.DatagramWhole`). A generic read of it
  returns -1, which is also EOF, and leaves the next datagram alone: the cut never falls between
  two parts of the payload, where the reader would take the next frame for samples, because parts
  have even lengths and what a datagram holds of them has an odd one (`Cuts.CutEvent`,
  `Cuts.OddEndsInside`, `Cuts.CutChannels`).

## Model

| member | source | states |
|---|---|---|
| Crc.ShiftZeroIsRfc1662 | src/pueocrc.c:6-39 | the reference register's branch-free step is the shift-and-xor step of RFC 1662 with the reflected polynomial 0x8408 |
| Crc.TableEntry | src/pueocrc.c:6-39 | each of the 256 constants of the table is its index shifted eight times through the register |
| Crc.ByteIsRegister | src/pueocrc.c:41-44 | one table step equals feeding the eight bits of the byte, least significant first, from any register state |
| Crc.TableRefinesRegister | src/pueocrc.c:47-53 | for every start value and buffer the table checksum is what the bit register holds after all bits of the buffer |
| Crc.Composition | src/pueocrc.c:47-53 | continuing over a and then b is one pass over a followed by b |
| Crc.Linear | src/pueocrc.c:41-53 | the checksum is linear over exclusive or, jointly in start value and buffer |
| Crc.StartBijection | src/pueocrc.c:47-53 | for a fixed buffer every result comes from exactly one start value |
| Crc.TwoByteBijection | src/pueocrc.c:47-53 | for a fixed start value every result comes from exactly one two-byte buffer |
| Crc.SixteenBitsShow | src/pueocrc.c:41-53 | any sixteen bits that are not all zero leave a cleared register nonzero |
| Crc.ErrorShows | src/pueocrc.c:41-53 | an error pattern leaves the checksum unchanged iff its own checksum from zero is zero |
| Crc.BurstDetected | src/pueocrc.c:41-53 | no error confined to sixteen consecutive bits, at any place of any buffer, leaves the checksum unchanged |
| Crc.Crc16Continue | src/pueocrc.c:47-53 | the loop over memory computes the table checksum, hence the bit register, of the bytes it is given |
| Crc.LeadingZero | src/pueocrc.c:41-53 | a zero byte in front of a buffer leaves the checksum unchanged iff eight shifts leave the start value unchanged, whatever the buffer |
| Crc.LeadingZeroShows | src/pueocrc.h:10-14 | from 0xffff a zero byte in front of any buffer changes the checksum, from 0 it never would |
| Crc.KnownAnswer | src/pueocrc.h:10-14 | the checksum of "123456789" is 0x6f91 |
| Versions.CodesDispatch | inc/pueo/rawio.h:173-191 | a code selects a case of the dispatch table iff it is that type's code, so no two types share one |
| Versions.SizesGrow | src/rawio_versions.c:49-55 | sizes never shrink from one version to the next, and the last is the size of the struct |
| Layouts.OneLayout | inc/pueo/rawdata.h:117-712 | the rules of the ABI leave one layout to the fields of a struct |
| Layouts.StructsByAbi | inc/pueo/rawdata.h:117-712 | every declared struct, of every version, has the places, size and alignment that these rules give it |
| Layouts.SizesAreLaidOut | src/rawio_versions.c:7-57 | each entry of each size table is the size that the ABI gives to the struct of that version, and the last one sizeof |
| Layouts.WaveformOffsets | inc/pueo/rawdata.h:130-136 | length and samples of a waveform stand where the channel codecs look for them, and there are 1024 |
| Layouts.PrefixesAreLaidOut | src/rawio_packets.c:152-203 | what each version of a waveform type sends first is what stands before the waveforms in the declaration of that version; readout_time and the waveforms stand in memory where the readers put them |
| Layouts.ArraysEnd | inc/pueo/rawdata.h:234-695 | the array of each counted type ends where its declaration ends it |
| Layouts.SensorOffsets | inc/pueo/rawdata.h:269-284 | counts and sensors of both sensor types stand where the codecs look for them |
| Layouts.EchoOffsets | inc/pueo/rawdata.h:390-396 | the same for the length and data of a command |
| Layouts.FileOffsets | inc/pueo/rawdata.h:686-695 | the same for the length and data of a file |
| Layouts.LogOffsets | inc/pueo/rawdata.h:542-551 | the same for the three lengths and the text of a log |
| Layouts.SatOffsets | inc/pueo/rawdata.h:343-362 | the same for the number of satellites and their records |
| Layouts.PlacesKept | src/rawio_versions.h:37-284 | where a declaration begins with another, every field of the other keeps its place |
| Layouts.VersionsGrow | src/rawio_versions.h:37-284 | the declaration of a version of a plain type begins with that of an older one, field by field at the same places, iff it is not version 1 of slow |
| Layouts.SlowFieldsMove | src/rawio_versions.h:39-55 | the places of the last fields of version 0 of slow, and what version 1 has there |
| Packets.DecodeEncode | inc/pueo/rawdata.h:106-113 | no field of a header is lost in its eight bytes |
| Packets.EncodeDecode | inc/pueo/rawdata.h:106-113 | every eight bytes are the memory of one header |
| Packets.EncodeBytes | inc/pueo/rawdata.h:106-113 | the eight bytes of a header are two little-endian 16-bit numbers, code and checksum, and the word f1 + 256 version + 4096 num_bytes |
| Packets.U16OfBytes | src/rawio_packets.c:88-123 | a 16-bit field whose first byte is the low byte of a number is read as that number |
| Images.SendableIs | src/rawio_packets.c:205-372 | a struct has a wire image iff its sensor count is at most 256 or the version is 0, its file at most 65000 bytes, its three texts at most 2048 together, and a plain type has the version |
| Images.WireIsParts | src/rawio_packets.c:30-372 | a wire image is the fixed part followed by the parts: all sensors in version 0, otherwise as many as counted; satellites of ten bytes; daemon text, grep text and messages in this order; file or command data; channels with length-many samples, 1024 at most |
| Images.ImagesDetermine | src/rawio_packets.c:30-372 | structs with the same wire image have the same fixed part and the same parts |
| Images.GreatestEvent | src/rawio_packets.c:165-188 | an event whose 224 length fields hold 1024 is sent whole, with num_bytes 459696 |
| Packets.LengthBound | src/rawio_packets.c:165-176 | the 20-bit length field always holds the wire length, which is at most 459696, and every type but full waveforms fits in a datagram with its header |
| Reading.CountLocal | src/rawio_packets.c:336-344 | how much of an array is sent depends only on the bytes before the array |
| Grammar.ReadsWaveform | src/rawio_packets.c:99-111 | a waveform read consumes its header and its samples, the length clamped to 1024, and stores exactly these |
| Grammar.ChannelsConsume | src/rawio_packets.c:196-201 | the channel loop consumes exactly the waveforms that the wire bytes announce, and returns their size |
| Grammar.ChannelsStore | src/rawio_packets.c:196-201 | the used parts of the channels it leaves in memory, put together, are the bytes consumed, and memory before them is untouched |
| Grammar.ReadsSimple | src/rawio_packets.c:50-58 | a plain type of any version is read as size(version) wire bytes and zeroes |
| Grammar.ReadsCounted | src/rawio_packets.c:218-372 | each counted type is read as its fixed part, the counted part of its array and zeroes, and nothing more is consumed |
| Grammar.ReadsWaveforms | src/rawio_packets.c:152-203 | the waveform types are read as the prefix of the version and their channels; version 0 zeroes readout_time |
| Grammar.ReadsPayload | src/rawio_packets.c:37-372 | on arbitrary bytes that start with a payload of a type and version, the reader consumes exactly that payload, and the wire image of the memory it leaves, which the header builder measures and sums, is that payload |
| Grammar.PayloadLocal | src/rawio_packets.c:37-372 | where a payload ends is settled by its own bytes, whatever follows |
| Grammar.WireIsPayload | src/rawio_packets.c:128-372 | what a writer sends for any struct in range is a payload of exactly that length |
| Grammar.UsedDetermines | src/rawio_packets.c:99-111 | channels with the same wire bytes have the same headers and the same used samples |
| Grammar.LengthFieldsDecide | src/rawio_packets.c:205-372 | changing bytes outside the length and count fields does not move the end of a payload, nor whether it ends in an empty part |
| Parts.PacketConsumes | src/rawio_packets.c:37-372 | on any bytes, over both transports, a packet reader returns the number of bytes it consumed, or -1 |
| Parts.PayloadStreams | src/rawio.c:126-145 | where every part of a payload lies within one datagram, a packet reader leaves the same memory, value and remaining bytes as on a stream of the datagrams' bytes |
| Parts.ReadsWhole | src/rawio_packets.c:37-372 | there it consumes exactly the payload with which those bytes start, and the wire image of the memory it leaves is that payload |
| Parts.AheadIsWhole | src/rawio.c:126-145 | a payload in one piece, as writers send it, is such a case |
| Parts.StreamIsWhole | src/rawio_packets.c:37-372 | in a stream every part can be had iff the payload is complete |
| Parts.CutChannelsFail | src/rawio_packets.c:190-203 | a channel part that ends before its bytes, in a stream or in its datagram, makes the channel loop return -1 |
| Parts.WaveformsGiveUp | src/rawio_packets.c:152-203 | the readers of the waveform types return -1 iff some part cannot be had whole |
| Parts.CutCountedShows | src/rawio_packets.c:218-372 | a counted reader that cannot have its parts whole returns less than the length rebuilt from the memory it leaves |
| Writing.WritesChannels | src/rawio_packets.c:178-188 | the channel loop puts out the used parts of all channels in order and returns how much was accepted, to a file or a bounded datagram buffer |
| Writing.WritesWire | src/rawio_packets.c:30-35 | each packet writer puts out exactly the wire image whose length and checksum the header builder announces |
| Writing.WritesFrame | src/rawio.c:554-569 | a write at a packet boundary delivers header and wire image, as one datagram cut at 65507 bytes over UDP, returns their size, and adds it to bytes_written and one to the packet counter, modulo their widths |
| Writing.DatagramWhole | src/rawio.c:98-111 | a datagram carries the whole frame iff header and payload together are at most 65507 bytes, which holds for every type but full waveforms |
| Frames.PrefixFree | src/rawio.c:554-569 | no frame, of any type and version, with whatever length and checksum in its header, is a proper prefix of another |
| Frames.Unambiguous | src/rawio.c:554-569 | if one stream of such frames starts another, its messages start the other's |
| Frames.WritesValid | src/rawio.c:554-569 | every write produces a valid frame of 8 + num_bytes bytes |
| Frames.HeaderNames | src/rawio.c:554-557 | the header of every write holds the code of the type, its latest version, 0xf1, and the length and checksum of the payload |
| Frames.StreamsDiffer | src/rawio.c:384-392 | two runs of writes leave the same stream only if types and used bytes agree one by one |
| Frames.WritesRun | src/rawio.c:554-569 | after any run of writes the sink has grown by exactly the frames in order, over UDP by one datagram each, cut at 65507 bytes, bytes_written by their size modulo 2^64 and the packet counter by their number modulo 2^32 |
| Frames.OutputsWhole | src/rawio.c:98-111 | what goes out is the whole frames iff it goes to a file or all of them fit in datagrams |
| Frames.WholeRun | src/rawio.c:554-569 | then bytes_written grows by the sum of 8 + num_bytes |
| Frames.ConcatSize | src/rawio.c:554-569 | that sum is the length of the stream |
| Streams.ReadsHeader | src/rawio.c:410-422 | eight bytes of a header, in the stream or at the front of the next datagram, become last_read_header and count as eight bytes read |
| Streams.ReadsBody | src/rawio.c:530-546 | a typed read of any bytes that start with a payload consumes it, counts it, stores it, and prints the checksum message iff the header's checksum is not that of the bytes consumed, and the length message iff its length is not theirs; it waits iff the payload is the end of the last datagram and ends in an empty part |
| Streams.ReallocDelivers | src/rawio.c:487-507 | from any packet, null or too small included, whatever malloc returns and whatever follows, the next message is delivered with its header and exact payload, each complaint printed iff the header gives a wrong checksum or length, and the handle is clean behind it at the exact place in the same source; it waits iff the message ends in an empty part and no datagram follows |
| Streams.ReallocCapacity | src/rawio.c:487-507 | the message comes in the given packet, or one of 512 bytes for a null pointer, if the struct fits, and otherwise in one of exactly its size |
| Streams.ReadsAll | test/read-packets.c:44-76 | a loop of generic reads over any messages, of mixed types and versions, as a stream or as datagrams, delivers them in order, with a complaint for exactly those whose headers are wrong; a stream then reports EOF and is at its end; datagrams report EOF on one of no bytes, and the call that finds none left waits, which is the read of the last message iff that ends in an empty part and nothing follows it; the number of results is exact, and every byte is counted |
| Streams.FileRoundTrip | src/rawio.c:384-507 | whatever a run of pueo_ll_write puts into a file, the loop reads back, every packet in order with its used bytes and a header that names the type and latest version of the struct written, without complaint, one ending in an empty part at the end included; then EOF, with the file at its end and bytes_read equal to its length |
| Streams.SocketRefinesFile | src/rawio.c:99-145 | if every frame fits, a socket sends one datagram a packet; together they are the file, and reading them comes to what reading the file comes to, except that the call that finds no datagram left waits: the read of the last packet if it ends in an empty part and nothing follows it, otherwise the one after all packets and all datagrams of no bytes |
| Streams.ValidSourceNeverTraps | src/rawio.c:487-507 | at every message boundary of a source of frames, and at its end, a generic read stops in no case, and returns iff it does not ask for a datagram that never comes |
| Streams.TypedReadDelivers | src/rawio.c:530-546 | a typed read of the right type delivers the message over both transports, unless it has to wait, stands at the exact place in the same source behind it, and leaves the handle ready for the next header iff it read from a stream or the message does not end in an empty variable part |
| Streams.StaleHeader | src/rawio.c:410-438 | a handle with a stale header as read fails generic reads with -EIO and returns 0 from typed reads of other types |
| Streams.UnknownType | src/rawio.c:440-478 | a generic read of a code outside the dispatch table returns 0 with the header, consumes no byte behind it, and leaves a clean handle |
| Streams.EmptyFileEndsBare | src/rawio_packets.c:291-306 | a file download of no bytes is a valid packet with an empty variable part |
| Streams.StuckForever | src/rawio.c:410-438 | every run of generic reads fails with -EIO at each call iff the header flag is set and no size is required, or a header is next of which only one to seven bytes can be had and 0xf1 stands in its place |
| Streams.GetsStuck | src/rawio.c:410-438 | a generic read that returns leaves the handle so iff it was so, or it met fewer than eight bytes of a header, other than at the end of a file |
| Streams.AfterEof | src/rawio.c:126-138 | at the end of a stream every generic read reports EOF; on a datagram of no bytes the first does, and all later ones fail with -EIO, whatever datagrams follow |
| Runs.FailedAttemptIsInvisible | src/rawio.c:424-478 | on arbitrary input, a generic read that fails with -EMSGSIZE changes nothing that a later one can see: same state, packet, value and messages as if it had been the first |
| Runs.FailedAttemptsAreInvisible | src/rawio.c:424-478 | the same for any number of failed attempts with packets of any sizes |
| Runs.ReallocIsOneRead | src/rawio.c:487-507 | pueo_ll_read_realloc is one pueo_ll_read with a packet that has room, and never returns -EMSGSIZE |
| Runs.AmpleReadsAgree | src/rawio.c:424-478 | on any bytes that start with a payload, from a clean handle or after failed attempts, over both transports, generic reads into any two packets with room give the same state, value, header, messages and contents, and leave memory behind the struct alone; both wait where the payload ends the last datagram in an empty part |
| Runs.ReallocIsAmpleRead | src/rawio.c:487-507 | there pueo_ll_read_realloc, with a null pointer or a packet of any capacity, gives what pueo_ll_read gives with ample capacity |
| Runs.PeekIsHarmless | src/rawio.c:530-546 | a typed read of the wrong type returns 0, leaves memory alone, and is invisible to every later typed read |
| Runs.PeeksAreHarmless | src/rawio.c:530-546 | however many wrong types are tried, the handle is as after the first and the matching read gives what it would have given at once |
| Runs.BodyGivesUp | src/rawio.c:536-543 | a typed read that returns gives -1 behind its header iff the type is a waveform type and some part cannot be had whole |
| Runs.TypedReadConserves | src/rawio.c:530-546 | on any bytes, over both transports, bytes_read grows by exactly what a typed read consumes iff the read does not meet waveforms cut short by the end of the stream or of a datagram; on these it goes back by one behind the header |
| Runs.GenericReadConserves | src/rawio.c:424-478 | the same for generic reads with any room, failed attempts included |
| Runs.RunConserves | src/rawio.c:410-546 | over any run of typed and generic reads, of right and wrong types, with room and without, on any bytes, over both transports, bytes_read grows by exactly what is consumed, unless a call meets waveforms cut short |
| Contents.ReadSets | src/rawio_packets.c:50-372 | a read sets the bytes of the prefix, of readout_time in version 0, and of each channel's used part, or all but the padding of a log packet, to values that do not depend on the old memory, and leaves every other byte as it was |
| Contents.ReadsAreIndependent | src/rawio_packets.c:50-372 | reads of the same bytes into different memories consume the same and leave the same contents; the whole memories agree afterwards iff they agreed before on the bytes that the read does not set |
| Contents.WholeReadsAreIndependent | src/rawio_packets.c:50-372 | the same for a payload in several datagrams, none of whose parts runs over the end of one |
| Contents.SetsAll | src/rawio_packets.c:50-372 | every byte of memory is set: never by a single waveform, which ends in padding; by a full event iff all 224 channels are full; never by a log packet; always by the other types |
| Contents.PrioStays | src/rawio_packets.c:152-163 | versions 0 and 1 of a single waveform leave prio as it was |
| Contents.PrioShows | src/rawio_packets.c:152-163 | one packet of either version read over two memories leaves different structs |
| Contents.LogPaddingShows | src/rawio_packets.c:336-344 | one empty log packet read over two memories leaves different structs |
| Integrity.VersionsMigrate | src/rawio_packets.c:30-58 | a plain packet of an old version is read as its wire bytes and zeroes; written at the current version and read again it is the identical struct, with matching checksum and length |
| Integrity.IncompleteIsReported | src/rawio.c:536-543 | if a payload cannot be had whole, from a stream or from datagrams, the length message is printed |
| Integrity.SilenceMeansTruth | src/rawio.c:536-543 | on any bytes, over both transports, neither message is printed iff the bytes start with a payload that can be had whole and the header gives its length and checksum |
| Integrity.BurstIsReported | src/rawio.c:536-543 | a burst of at most sixteen bits anywhere in a payload, length fields included, over both transports, makes a typed read print the checksum message alone if the bytes still read as a payload of that length, and the length message iff they do not |
| Integrity.LengthSurvives | src/rawio_packets.c:37-372 | an error outside the length and count fields leaves a readable payload of the same length |
| Integrity.BurstEndToEnd | src/rawio.c:530-546 | over either transport, a frame hit by such a burst outside its length fields is read in full, the checksum message is printed, the length message not, and the handle stands where it would behind the sound frame; the read waits only where one of the sound frame does |
| Integrity.DamageShows | src/rawio.c:536-543 | a message hit by such a burst is still a frame of the same header and size, whose checksum is wrong iff it was hit |
| Integrity.DamagedRun | src/rawio.c:487-543 | in a run of generic reads in which any payloads have been hit so, all messages are delivered in order and in full, as in an undamaged run, and the checksum message is printed for exactly those that were hit |
| Cuts.CutChannels | src/rawio_packets.c:190-203 | on a datagram that does not hold all channels the loop gives up and leaves the next datagrams alone if it ends inside the header or samples of a channel, and otherwise goes on into the next one |
| Cuts.OddEndsInside | src/rawio_packets.c:99-111 | an odd number of bytes that lacks channels ends inside a channel's header or samples |
| Cuts.CutEvent | src/rawio.c:98-111 | a generic read, with any packet, of an event that the writer cut at 65507 bytes returns -1, prints the length message, and leaves a clean handle at the next datagram |
| Vectors.FramesAreMarked | inc/pueo/rawdata.h:74-113 | frames of each type start with the two bytes of its code, low byte first, and have 0xf1 as fifth byte |
| Vectors.EmptyPriorities | src/rawio_packets.c:37-48 | the frame of empty saved priorities, byte by byte |
| Vectors.EmptyEcho | src/rawio_packets.c:265-280 | the frame of the echo of one zero byte |
| Vectors.NoSensors | src/rawio_packets.c:205-233 | the frame of a sensor packet without sensors, of version 1 |
| Vectors.ShortLog | src/rawio_packets.c:319-334 | the frame of a log of three characters of a daemon |
| Rawio.UpdateLenCksumWaveform | src/rawio_packets.c:113-123 | the accumulated length and checksum go forward by the used part of the waveform in memory |
| Rawio.HeaderForWaveforms | src/rawio_packets.c:136-176 | the length and checksum accumulated over prefix and channels are those of the whole wire image in one piece |
| Rawio.HeaderForSimple | src/rawio_packets.c:37-48 | the header built from memory announces the wire image of the version |
| Rawio.CountedSize | src/rawio_packets.c:205-362 | the length worked out from the count fields, version 0 of the sensor packets taking the whole struct, is that of the wire image |
| Rawio.HeaderForCounted | src/rawio_packets.c:205-362 | the header built from memory announces the wire image of the version |
| Rawio.Handle.constructor | src/rawio.c:341-350 | a new handle is cleared, its buffer empty, and stands at the front of its input |
| Rawio.Handle.SocketReadBytes | src/rawio.c:126-145 | the buffer cursors and the header flag move as in the datagram source: receive when used up, then at most what is left |
| Rawio.Handle.ReceiveNext | src/rawio.c:131-138 | the next datagram, which may be empty, replaces one that is used up, and its header counts as read |
| Rawio.Handle.SocketWriteBytes | src/rawio.c:98-111 | bytes are appended to the buffer as far as 65507 allows, and that many are reported |
| Rawio.Handle.DoneWritePacket | src/rawio.c:113-124 | the buffer goes out as one datagram and is empty again; a file needs nothing |
| Rawio.Handle.FileReadBytes | src/rawio.c:154-158 | as many bytes as are asked for and left are copied, and the position moves by them |
| Rawio.Handle.ReadPacketSimple | src/rawio_packets.c:50-58 | in place, the state, memory and value of `Reading.ReadSimple`, bad versions included |
| Rawio.Handle.ReadOneWaveform | src/rawio_packets.c:99-111 | in place, the state, memory and value of `Reading.ReadWaveform`, short reads included |
| Rawio.Handle.ReadPacketSingleWaveform | src/rawio_packets.c:152-163 | in place, the state, memory and value of `Reading.ReadWaveforms` |
| Rawio.Handle.ReadPacketFullWaveforms | src/rawio_packets.c:190-203 | the same for the loop over 224 channels, although readout_time is zeroed after the prefix is read |
| Rawio.Handle.ReadPacketSensorsDisk | src/rawio_packets.c:218-225 | in place, the state, memory and value of `Reading.ReadCounted`, with the rest zeroed only for a short array of version 1 |
| Rawio.Handle.ReadPacketSensorsTelem | src/rawio_packets.c:248-255 | the same, the rest always zeroed from the count of bytes read |
| Rawio.Handle.ReadPacketCmdEcho | src/rawio_packets.c:282-289 | the same, the rest of the array zeroed from the length field |
| Rawio.Handle.ReadPacketFileDownload | src/rawio_packets.c:308-315 | the same for files |
| Rawio.Handle.ReadPacketLogs | src/rawio_packets.c:336-344 | the same for the three lengths of a log, padding untouched |
| Rawio.Handle.ReadPacketNavSat | src/rawio_packets.c:364-372 | the same for satellites, padding zeroed |
| Rawio.Handle.WritePacketWaveforms | src/rawio_packets.c:128-188 | in place, the output and value of `Writing.WritePacket` for one and for 224 channels |
| Rawio.Handle.WritePacket | src/rawio_packets.c:30-349 | in place, the output and value of `Writing.WritePacket` for every type |
| Rawio.Handle.MaybeReadHeader | src/rawio.c:410-422 | the state and value of `Reading.MaybeReadHeader`, the header overwritten in place by as much as arrives |
| Rawio.Handle.Read | src/rawio.c:530-546 | the state, memory, value and both messages of `Reading.Read`, with the header rebuilt from memory; memory behind the struct is untouched |
| Rawio.Handle.Write | src/rawio.c:554-569 | the state and value of `Writing.Write`; what it appends to a file starts with a header of the type in its latest version |
| Rawio.Handle.LlWrite | src/rawio.c:384-392 | a code outside the table is refused with -1 and changes nothing; any other does its typed write |
| Rawio.Handle.LlRead | src/rawio.c:424-478 | the state, packet, value and messages of `Reading.LlRead`, a header that is known from a failed attempt not read again |
| Rawio.Handle.LlReadRealloc | src/rawio.c:487-507 | the state, packet, value and messages of `Reading.LlReadRealloc`; the packet is the one given iff there is one and the first attempt finds room in it, and a new one otherwise |

## Left out

- Runs.AmpleReadsAgree: not for a payload that is cut short, where a count may come from what the memory held before.
- Reading.ReadArray: says Trap for every count that reaches past its array, although on input that ends early the reader may write nothing outside it.
- Rawio.HeaderForWaveforms: the accumulated length is an unbounded integer where the program has 32 bits, which Packets.LengthBound shows to be enough.
- Rawio.Handle.LlReadRealloc: an old packet that is replaced is not freed.
- Prefixes, versions and counts are taken from the struct's bytes; what single fields and bit fields inside payloads mean (sensor values, timestamps, float16) is not modelled.
- Backends that fail or stop half-way (short writes, socket errors, gzip, file descriptors), opening and closing, URIs and descriptions: a backend here takes every byte and gives every byte until its input ends.
- How long a read waits: datagrams are given as the sequence of those that arrive.
- Calls with null packets, failing allocations, and warnings other than the two messages of a typed read.
- pueo_packet_as_X, whose capacity check is strict, so that a packet allocated to fit exactly is refused.
- Encoded waveforms, which are not in the dispatch table.
- The database and text output (src/rawio_db.c, src/rawio_dump.c), sensor tables (src/sensor_ids.c) and priorities (src/prio_interface.c).
