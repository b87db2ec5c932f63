# Verified models of the streaming protocol code

This project models the parts of the repository that turn byte streams into messages and back, and proves that they do what the protocols ask for.

* **HTTP/1.x push parser** (`Http*.dfy`). `HttpMachine` describes one byte at a time: what each state does with it, which callbacks it makes, how header bytes are counted. `HttpParser` is the loop over a buffer with its marks, counters and bulk paths for header names, header values and bodies. It is proved to do on every buffer what the one-byte machine does, so the way the network cuts the input makes no difference. On top of this: no assertion of the switch ever fails, chunk sizes and Content-Length values are accepted exactly when they can be represented, and a chunked body with any trailer section is delivered whole. What a block of header lines leaves in the parser is proved for all names and values, white space and line folds included (`HttpNames`, `HttpLists`, `HttpHeaders`): exactly which values set the chunked, close and keep-alive flags. Message framing and connection persistence are then compared with sections 3.3.3 and 6.3 of RFC 7230, read over the same header values (`HttpFraming`), with the exact conditions on the headers under which they agree and concrete blocks on which they do not (`HttpMisread`).
* **RTCP** (`Feedback*.dfy`, `TransportFeedback.dfy`, `Nack*.dfy`, `Remb.dfy`, `ReceiverStats.dfy`). The transport-wide congestion feedback encoder is proved against a reference decoder of draft-holmer-rmcat-transport-wide-cc-extensions-01; the NACK packer round-trips and is optimal; the bitrate codec has an exact accuracy statement; the receiver counters agree with the true packet numbers in every run of packets and reports.
* **AMF0** (`Amf0*.dfy`). Encoding, reader, size computation, copies and the insertion-ordered key table. A value survives a round trip if and only if it is well formed, or, at the very end of a buffer, well formed but for a last strict array that announces too much.
* **RTMP chunk stream** (`Rtmp*.dfy`, `DataBuf.dfy`). Sending is proved against a reference reader of section 5.3.1 of Adobe's RTMP 1.0 specification; receiving delivers the same messages however TCP cuts the stream and however chunk streams take turns in it.
* **MD5 streaming and the bit vector** (`Md5.dfy`, `BitVector.dfy`). Blocks, counts and padding of RFC 1321 around an arbitrary compression function; bit copying at any offset and Exp-Golomb codes.

Each component keeps the form of its source: loops over buffers are methods over arrays or sequences with invariants, objects with fields are classes, and their methods are tied to specification functions about which the lemmas speak. Bytes are integers from 0 to 255; bit operations on them are written as divisions, remainders and sums, and 16-, 32- and 64-bit wrap-around is written out wherever the code relies on it or suffers from it.

`dafny verify dfyconfig.toml` verifies the project.

## Where the code differs from its documentation

* `rtmp_stack_packet.cc:178` computes the chunk format as `(value & 0x03) >> 6`, which is 0 for every byte. The receive model does the same: every chunk is read as format 0.
* `base/our_md5.c:270` tests `i + 63 < inputLen` in 32-bit arithmetic. For a piece in which some index from 2^32 - 63 on is a block boundary the sum wraps, the test never fails and the loop runs for ever (`Md5.EndsExactly`, with an example in `Md5.NeverEnds`).
* `rtcp.c:1475` shifts in 32 bits: bitrates above 0xFFFFC000 find no exponent and are sent as 1 (`Remb.Accuracy`).
* The NACK packer is optimal for windows that do not wrap. Windows modulo 2^16, as RFC 4585 has them, can sometimes do with fewer: `Nack.NotOptimalModulo` is an example and `Nack.OptimalModulo` says exactly when.
* `RtmpAmf0String::copy` goes through a C string, so a copy is equal to its original only when no string value holds a zero byte (`Amf0Laws.CopyExactly`).
* A response with status 1xx, 204 or 304 has no body by section 3.3.3 of RFC 7230, but the parser reads one if its headers announce it (`HttpFraming.FramingExact`).
* `chunked` is recognised only as a last element with nothing but spaces around it, and is never forgotten: followed by a tab or a blank fold it is not seen (`HttpMisread.TabMisread`), and after a further line `Transfer-Encoding: identity` it still counts (`HttpMisread.SecondLineMisread`).
* An element that is a proper beginning of a keyword, a `chunked` that is not last, or an empty first element makes the parser pass over the next element; an empty later element, or a fold inside an element, makes it ignore the rest of the line (`HttpLists.RecognisedExact`). So `Connection: close` followed by a tab, and `Connection: ,close`, keep the connection open (`HttpMisread.CloseTabMisread`, `HttpMisread.EmptyElementMisread`).
* Any name that merely begins with Transfer-Encoding counts as one for the framing of the message (`HttpMisread.LongerNameMisread`), and Proxy-Connection is read like Connection (`HttpNames.HeaderOfExact`).
* HTTP/1.0 messages with both `keep-alive` and `close` keep the connection, and versions 2.0, 3.0 and so on are taken for 1.0 (`HttpFraming.KeepAliveExact`).
* A tab after the digits of a Content-Length is refused unless it starts a folded line (`HttpContentLength.ContentLengthExact`); RFC 7230 would allow it.
* `rtmp_transport.cc:229` copies a chunk into the send cache without asking whether it fits: at the default chunk size the 254th chunk of a message runs over the end (`RtmpSend.LongMessageRunsOver`).
* `rtmp_transport.cc:145` stores a message stream id only for chunk stream 0, which no message has, so received messages carry none.

## Model

| member | source | states |
|---|---|---|
| HttpParser.HttpParser.ExecuteAll | net/app_protocol/http_parser.c:641-2155 | A connection whose bytes come in any sequence of non-empty pieces ends with the parser fields and the joined callbacks of one run over all bytes, up to where the parser leaves for another protocol, and fails when and as that run does |
| HttpParser.HttpParser.Execute | net/app_protocol/http_parser.c:641-2155 | One call: does nothing after an error; an empty buffer completes a body that runs to the end or fails in the middle of a message; otherwise the machine's run over the buffer, with the number of bytes consumed; an error is the machine's, or a wrong character in a header value where the machine has already run over the size limit |
| HttpParser.HttpParser.Scan | net/app_protocol/http_parser.c:687-2147 | The main loop on one buffer refines the one-byte machine: fields, count of header bytes, joined log, and the exact byte after which it leaves |
| HttpParser.HttpParser.ScanField | net/app_protocol/http_parser.c:1256-1391 | The bulk loop over a header name, counted only at its end, agrees with the byte-by-byte machine, size limit included |
| HttpParser.HttpParser.ScanValue | net/app_protocol/http_parser.c:1482-1708 | The bulk loop over a header value, with its inner loop over unrecognised values, agrees with the byte-by-byte machine |
| HttpParser.HttpParser.ScanBody | net/app_protocol/http_parser.c:1944-1985 | Body data taken as one piece leaves what the machine leaves after all of its bytes; the last byte of a counted body also completes the message |
| HttpParser.HttpParser.SwitchByte | net/app_protocol/http_parser.c:718-2123 | The switch, run again on the same byte as often as a state asks for it, ends as the machine's byte does and terminates |
| HttpParser.HttpParser.ReportRest | net/app_protocol/http_parser.c:2127-2149 | At the end of a buffer the data still being collected is reported, and the joined log is that of the machine |
| HttpParser.HttpParser.constructor | net/app_protocol/http_parser.c:2225-2233 | A new parser is the machine's fresh state and meets the invariant |
| HttpMachine.RunConcat | net/app_protocol/http_parser.c:712-716 | The machine's run over two stretches of bytes is the run over their concatenation |
| HttpMachine.AgainDescends | net/app_protocol/http_parser.c:718-2123 | Every re-execution of the switch lowers a rank, so no byte can make it loop |
| HttpChunked.CutsAgree | net/app_protocol/http_parser.c:687-710 | Any cutting of the bytes gives the run over their concatenation |
| HttpMarks.SwitchOrderly | net/app_protocol/http_parser.c:2135-2139 | In every pass outside body data at most one kind of data is being collected, none when a notification is made, and exactly the states that collect data leave a mark; in passes over body data only body data is marked, and none of it is left when the body states are left |
| HttpInvariant.NoAssertionFails | net/app_protocol/http_parser.c:1949-1950 | From a fresh parser, on any input, no assertion of the switch fails: body states are entered and re-entered only with a length that is neither 0 nor the sentinel, chunk states only with the chunked flag |
| HttpInvariant.StepKeeps | net/app_protocol/http_parser.c:1996-2107 | One byte from a state that meets the invariant meets every assertion on its way and keeps the invariant |
| HttpNames.NameRun | net/app_protocol/http_parser.c:1226-1391 | A header name of any length and case is taken for a known header exactly as its letters spell it, sets the transfer encoding flag exactly when it begins with that word, and changes nothing else |
| HttpNames.HeaderOfExact | net/app_protocol/http_parser.c:1303-1367 | Connection and Proxy-Connection, Content-Length, Transfer-Encoding and Upgrade are recognised as whole names only |
| HttpListRuns.ListRun | net/app_protocol/http_parser.c:1579-1697 | The value of a list header, folds included, leaves the parser at the place, with the flags and with the reported bytes that the list reading of the same value has |
| HttpLists.RecognisedExact | net/app_protocol/http_parser.c:1579-1697 | A line sets the flag of a word if and only if one of its elements is seen and is that word followed by spaces only, a coding only as the last element; which elements are seen depends on how the ones before them end |
| HttpLists.PlaceExact | net/app_protocol/http_parser.c:1408-1478 | After any part of a value the parser stands where the last element, and its treatment by the ones before it, put it |
| HttpLists.OrdinaryOptions | net/app_protocol/http_parser.c:1614-1697 | On elements without tabs, folds and quotes that are no beginnings of keywords, a line sets an option if and only if it lists it |
| HttpLists.OrdinaryCodings | net/app_protocol/http_parser.c:1579-1612 | On such elements, with chunked at most last, a line sets chunked if and only if chunked is the final coding |
| HttpHeaders.HeaderRun | net/app_protocol/http_parser.c:1206-1789 | One header line of any name and value, ended by CR LF or LF, leaves the parser as its meaning says and reports its name and value once; only a Content-Length can fail |
| HttpHeaders.HeadersRun | net/app_protocol/http_parser.c:1719-1793 | A block of header lines is read to its empty line with the meanings of all of them, or fails exactly when a Content-Length is not taken |
| HttpStartLine.StartLineEnds | net/app_protocol/http_parser.c:927-953 | In every run from a fresh parser, whatever came before, the first header line of a message is reached with no flags, no length and no transfer encoding |
| HttpFraming.SummedAll | net/app_protocol/http_parser.c:1719-1748 | The headers are taken if and only if there is at most one Content-Length, with an acceptable value; the flags are then the sums over the lines of what each sets |
| HttpFraming.Conclusion | net/app_protocol/http_parser.c:1795-1941 | After any block of headers and its empty line the parser holds their sums, leaves for another protocol exactly when it is upgraded without a body or by CONNECT, and otherwise goes on as the sums decide |
| HttpFraming.LengthsRefused | net/app_protocol/http_parser.c:1436-1450 | A second Content-Length, or one whose value is not acceptable, makes the message fail |
| HttpFraming.FramingExact | net/app_protocol/http_parser.c:1795-1941 | After any block of headers the message is framed as section 3.3.3 of RFC 7230 permits for its header values, if and only if FramedRight holds of them: the lines set chunked exactly when it is the final coding, no name merely begins with Transfer-Encoding, no bodiless status announces a body, and no request is let through by the lenient setting |
| HttpFraming.NeedsEofExact | net/app_protocol/http_parser.c:2160-2185 | The end of input is needed exactly for messages that the RFC delimits by it, if and only if EofRight holds of kind, status and headers |
| HttpFraming.KeepAliveExact | net/app_protocol/http_parser.c:2189-2204 | The connection is kept as section 6.3 of RFC 7230 says for the header values, if and only if KeptRight holds of version, end of input and the options listed and seen |
| HttpFraming.OptionsAgree | net/app_protocol/http_parser.c:1614-1697 | Without Proxy-Connection lines and with ordinary elements the options set are the options listed over all Connection lines |
| HttpFraming.EncodingAgrees | net/app_protocol/http_parser.c:1579-1612 | One Transfer-Encoding line of ordinary elements, chunked at most last, is read as the RFC reads it |
| HttpMisread.SecondLineMisread | net/app_protocol/http_parser.c:1738-1740 | A request with the lines chunked and then identity is read in chunks where it must be refused |
| HttpMisread.TabMisread | net/app_protocol/http_parser.c:1671-1673 | A request with chunked and a tab or blank fold behind it is refused where chunks must be read |
| HttpMisread.LongerNameMisread | net/app_protocol/http_parser.c:1344-1367 | A request with a longer name that begins with Transfer-Encoding is refused where it has no body |
| HttpMisread.CloseTabMisread | net/app_protocol/http_parser.c:1675-1691 | HTTP/1.1 with close and a tab or blank fold behind it keeps the connection where it must be closed |
| HttpMisread.EmptyElementMisread | net/app_protocol/http_parser.c:1457-1470 | HTTP/1.1 with an empty element before close keeps the connection where it must be closed |
| HttpEncoding.FreshEncoded | net/app_protocol/http_parser.c:1344-1350 | In every run the chunked flag comes only with a Transfer-Encoding header |
| HttpContentLength.ContentLengthExact | net/app_protocol/http_parser.c:1436-1450 | A Content-Length value, folded and ended by CR LF or by LF, is accepted if and only if it is the first, has the shape blanks, digits, spaces, and denotes at most 18446744073709551609; the length is then that number, so it never wraps or equals the sentinel, and nothing else changes |
| HttpContentLength.EmptyLengthFails | net/app_protocol/http_parser.c:1778-1781 | A value without digits fails as soon as the next line does not continue it |
| HttpChunked.ChunkSizeExact | net/app_protocol/http_parser.c:1996-2046 | A chunk size of any number of hexadecimal digits is accepted if and only if it is at most 2^64 - 17, and is then what its digits denote |
| HttpChunked.ChunkedRun | net/app_protocol/http_parser.c:1996-2116 | Every list of non-empty chunks, with extensions, followed by a last chunk and any trailer fields makes exactly these callbacks: header, data and complete for each chunk, then header, the fields, complete and message_complete; it fails exactly when a trailer is a Content-Length that is not taken |
| HttpChunked.ChunkedTransfer | net/app_protocol/http_parser.c:1795-1804 | For every cutting of a chunked body with trailers (section 4.1 of RFC 7230) the joined body bytes are the joined chunks, chunk_complete fires once per chunk including the last, message_complete once |
| HttpChunked.TrailersKeep | net/app_protocol/http_parser.c:2189-2204 | Trailer fields with other names than Connection and Proxy-Connection do not change whether the connection is kept |
| HttpChunked.JoinedKeeps | net/app_protocol/http_parser.c:105-133 | Joining adjacent data callbacks changes neither the body bytes nor the notifications |
| HttpScan.ChunkDataRun | net/app_protocol/http_parser.c:2078-2099 | A stretch of chunk data counts the remaining length down by its size and is one piece of body data |
| TransportFeedback.TransportWideCcFeedback | net/app_protocol/librtcp/rtcp.c:1575-1895 | While no run in the queue outgrows the 13 bits of a run chunk, which up to 8191 records cannot, the written message is read by the reference decoder as exactly the observed statuses and deltas, with base sequence number, reference time, count, ssrcs and packet count; the queue is emptied |
| TransportFeedback.RebuiltTimes | net/app_protocol/librtcp/rtcp.c:1638-1671 | While no delta is clamped and the reference fits 23 bits, the time rebuilt for the k-th arrival is within 250 k microseconds of the true one, and never later when arrivals do not go back in time |
| TransportFeedback.ParseDeltasReads | net/app_protocol/librtcp/rtcp.c:1857-1878 | The deltas stay aligned with the statuses: none, one or two bytes for each, and clamped to 16 bits |
| TransportFeedback.MessageReads | net/app_protocol/librtcp/rtcp.c:1575-1625 | Header, chunks, deltas and padding in their places are read back as the expected feedback |
| TransportFeedback.ClockTracks | net/app_protocol/librtcp/rtcp.c:1638-1671 | The receiver's clock after any prefix stays within 250 microseconds per arrival of the last arrival time |
| FeedbackChunks.ChunkWriter.Append | net/app_protocol/librtcp/rtcp.c:1672-1797 | One more status: written chunks and queue together still stand for all statuses so far, the queue is the function QueueAfter of them, and ends at most 7 long in mixed two-bit mode and 13 in mixed one-bit mode |
| FeedbackChunks.ShortRunsFit | net/app_protocol/librtcp/rtcp.c:1672-1797 | No run of more than 8191 equal statuses among the records is enough for every queued run to fit its chunk |
| FeedbackChunks.ChunkWriter.EndRun | net/app_protocol/librtcp/rtcp.c:1674-1704 | When a run ends it is either long enough to be written as a run-length chunk or stays queued as a mixed one |
| FeedbackChunks.ChunkWriter.FillVector | net/app_protocol/librtcp/rtcp.c:1717-1797 | A full two-bit or one-bit chunk takes exactly its symbols off the queue, and the summary of the rest is rebuilt |
| FeedbackChunks.ChunkWriter.Finish | net/app_protocol/librtcp/rtcp.c:1803-1854 | After the last record all symbols written start with all statuses seen; what follows them is padding of the last chunk |
| FeedbackChunks.RunFits | net/app_protocol/librtcp/rtcp.c:1687-1691 | A run-length chunk stands for n equal symbols exactly when n fits 13 bits |
| FeedbackChunks.VectorSymbols | net/app_protocol/librtcp/rtcp.c:1776-1787 | A packed one-bit or two-bit vector chunk decodes to the packed symbols and zero padding |
| FeedbackChunks.PushPacked | net/app_protocol/librtcp/rtcp.c:42-44 | Pushing symbols into a word one after the other is their positional number |
| FeedbackFormat.ParseStatusesReads | net/app_protocol/librtcp/rtcp.c:1575-1625 | The reference decoder takes exactly the chunks it needs and yields the first n of their symbols |
| NackCodec.NackRoundTrip | net/app_protocol/librtcp/rtcp.c:1531-1573 | The packed message of a sorted list decodes to its distinct members in order, and of a strictly ascending list to the list itself |
| NackCodec.RtcpNacks | net/app_protocol/librtcp/rtcp.c:1531-1573 | Writes exactly the message of the packed list, or returns -1 precisely when there is nothing to write or no room; no list needs more than 3856 pairs |
| NackCodec.RtcpGetNacks | net/app_protocol/librtcp/rtcp.c:1186-1252 | Reading a compound packet yields what the reference decoder finds, and nothing when a header on the way is malformed |
| Nack.PackedUnpacked | net/app_protocol/librtcp/rtcp.c:1549-1570 | Unpacking the packed pairs gives the sorted list without repetitions |
| Nack.Optimal | net/app_protocol/librtcp/rtcp.c:1543-1570 | No set of 17-wide windows covers an ascending list with fewer pairs |
| Nack.OptimalModulo | net/app_protocol/librtcp/rtcp.c:1543-1570 | Windows modulo 2^16 can do with fewer pairs if and only if one of the 16 wrapping windows together with the packed rest takes fewer |
| Nack.NotOptimalModulo | net/app_protocol/librtcp/rtcp.c:1556-1565 | The list 3, 65530 is packed into two pairs where one wrapping pair covers it |
| NackFormat.OrFits | net/app_protocol/librtcp/rtcp.c:1566-1568 | Setting one of the 16 bits of a mask stays within 16 bits |
| Remb.Accuracy | net/app_protocol/librtcp/rtcp.c:1470-1489 | Decoding an encoded bitrate is exact up to 0x3FFFF, short by less than bitrate/(2^17-1) up to 0xFFFFC000, and 1 above |
| Remb.LeastExponent | net/app_protocol/librtcp/rtcp.c:1473-1480 | The exponent found is the least one whose mantissa bound admits the bitrate, and there is none exactly above 0xFFFFC000 |
| Remb.MessageEstimate | net/app_protocol/librtcp/rtcp.c:1309-1350 | The written message is read back as the decoded bitrate |
| Remb.RtcpRembSsrcs | net/app_protocol/librtcp/rtcp.c:1450-1492 | Writes exactly the REMB message for any number of sources, or returns -1 when it does not fit or names none |
| Remb.RtcpGetRemb | net/app_protocol/librtcp/rtcp.c:1309-1350 | Finds the first REMB message of a compound packet as the reference reading does, or 0 |
| ReceiverStats.RunTells | net/app_protocol/librtcp/rtcp.c:834-912 | In every run of packets and reports that starts in 1..32767 and keeps within 2^15 of the highest, the cycle and highest number equal the true highest, expected is highest minus first plus one, and the interval counts are true |
| ReceiverStats.PacketTells | net/app_protocol/librtcp/rtcp.c:847-900 | One more packet, in or out of order or on the retransmission channel, keeps the counters true |
| ReceiverStats.ReadableExactly | net/app_protocol/librtcp/rtcp.c:852-858 | The highest number stays right if and only if the distance of the packet can be read from 16 bits |
| ReceiverStats.FirstPacket | net/app_protocol/librtcp/rtcp.c:847-867 | The count starts correctly if and only if the first number is in 1..32767 |
| ReceiverStats.ReportDecodes | net/app_protocol/librtcp/rtcp.c:941-1016 | A positive expected interval has a reception in it; the fraction lost is below 256 and is the lost share, and the packed word gives back it and the clamped loss count |
| ReceiverStats.ReportTells | net/app_protocol/librtcp/rtcp.c:997-1026 | A report keeps the counters true and adds exactly the packets lost since the last one |
| ReceiverStats.RtcpContext.ProcessIncomingRtp | net/app_protocol/librtcp/rtcp.c:834-912 | The context moves as the counters of the specification do, for every combination of retransmission settings, with the last timestamp in order and the clock rate that judge whether a packet is late |
| ReceiverStats.TooOldExactly | net/app_protocol/librtcp/rtcp.c:891-896 | While the product does not wrap, an out-of-order packet is taken for a retransmission exactly when its timestamp is 121 ms or more away, before or after |
| ReceiverStats.RtcpContext.ReportBlock | net/app_protocol/librtcp/rtcp.c:997-1026 | The report carries the extended highest number and the packed loss of the interval that it closes |
| Amf0Ends.RoundTripExactly | net/app_protocol/rtmp/rtmp_stack_amf0.cc:1354-1369 | A value followed by any bytes, or by none, is read back as itself with exactly its own bytes consumed, if and only if it is well formed, or, at the end, well formed but for a last strict array that announces more elements than it has |
| Amf0Ends.Swallows | net/app_protocol/rtmp/rtmp_stack_amf0.cc:932-967 | A value that is cut short and followed by object ends is read as another value, and takes ends for its own |
| Amf0Laws.RoundTrip | net/app_protocol/rtmp/rtmp_stack_amf0.cc:305-364 | Every well-formed value of any nesting is read back from its encoding whatever follows, nothing included |
| Amf0Laws.PropertiesRoundTrip | net/app_protocol/rtmp/rtmp_stack_amf0.cc:594-642 | Key and value pairs come back in the same order behind those already in the table |
| Amf0Laws.NotEnd | net/app_protocol/rtmp/rtmp_stack_amf0.cc:1631-1640 | No key with its value can be taken for the object end |
| Amf0Laws.ReadsWellFormed | net/app_protocol/rtmp/rtmp_stack_amf0.cc:594-642 | On any bytes, a reader that stops before their end returns a well-formed value |
| Amf0Laws.SizeExact | net/app_protocol/rtmp/rtmp_stack_amf0.cc:577-592 | total_size is never less than the encoded length, and equal to it if and only if all strings and keys are at most 32767 bytes |
| Amf0Laws.CopyExactly | net/app_protocol/rtmp/rtmp_stack_amf0.cc:1141-1145 | A copy equals its original if and only if no string value holds a zero byte and no key occurs twice |
| Amf0Laws.WithDistinct | net/app_protocol/rtmp/rtmp_stack_amf0.cc:409-427 | Setting a key keeps all keys distinct |
| Amf0.ReadAny | net/app_protocol/rtmp/rtmp_stack_amf0.cc:1354-1369 | Every successful read takes at least one byte and at most the buffer, which is why the mutual recursion ends on all inputs |
| Amf0Codec.DecodeAny | net/app_protocol/rtmp/rtmp_stack_amf0.cc:305-364 | The recursive reader over a buffer returns what the reference reading of those bytes is |
| Amf0Codec.DecodeProperties | net/app_protocol/rtmp/rtmp_stack_amf0.cc:610-641 | The property loop fills the table as the reference does, up to an object end or the end of the buffer |
| Amf0Codec.DecodeElements | net/app_protocol/rtmp/rtmp_stack_amf0.cc:932-967 | The element loop of a strict array stops at the announced count or at the end of the buffer |
| Amf0Codec.DecodeText | net/app_protocol/rtmp/rtmp_stack_amf0.cc:1567-1607 | Reads a string with a signed 16-bit length; a length that is not positive gives the empty string |
| Amf0Codec.ComputeSize | net/app_protocol/rtmp/rtmp_stack_amf0.cc:577-592 | The recursive size computation with its loops gives the total size of the specification |
| Amf0Codec.CopyOf | net/app_protocol/rtmp/rtmp_stack_amf0.cc:677-682 | The recursive copy through a new table gives the copy of the specification |
| Amf0Codec.WithLookup | net/app_protocol/rtmp/rtmp_stack_amf0.cc:429-443 | A key that was set is found with its value; all others keep theirs |
| Amf0Codec.DroppedFirst | net/app_protocol/rtmp/rtmp_stack_amf0.cc:475-491 | With distinct keys, removing all properties with a key is removing the first one |
| Amf0Codec.UnSortedHashtable.Set | net/app_protocol/rtmp/rtmp_stack_amf0.cc:409-427 | The old property goes, the new one comes last; without a value the key is only removed |
| Amf0Codec.UnSortedHashtable.GetProperty | net/app_protocol/rtmp/rtmp_stack_amf0.cc:429-443 | Finds the value of the first property with the key, or nothing |
| Amf0Codec.UnSortedHashtable.Remove | net/app_protocol/rtmp/rtmp_stack_amf0.cc:475-491 | Erases every property with the key and keeps the order of the others |
| Amf0Codec.UnSortedHashtable.CopyFrom | net/app_protocol/rtmp/rtmp_stack_amf0.cc:492-502 | Sets copies of all values of another table, in order |
| Amf0Writer.WriteAny | net/app_protocol/rtmp/rtmp_stack_amf0.cc:644-675 | Succeeds if and only if the encoding fits, returns its length, writes exactly it and touches nothing else |
| Amf0Writer.WriteProperties | net/app_protocol/rtmp/rtmp_stack_amf0.cc:656-674 | The loop over the properties writes all of them and the object end, or fails exactly when they do not fit |
| Amf0Writer.WriteElements | net/app_protocol/rtmp/rtmp_stack_amf0.cc:969-995 | The loop over the elements writes all of them, or fails exactly when they do not fit |
| Amf0Writer.WriteText | net/app_protocol/rtmp/rtmp_stack_amf0.cc:1609-1629 | Writes length and bytes of a string, or fails exactly when they do not fit |
| Amf0Writer.WrittenThenRead | net/app_protocol/rtmp/rtmp_stack_amf0.cc:1354-1369 | Writing a well-formed value succeeds if and only if the buffer has total_size bytes, and reading the buffer then returns the value and that size |
| RtmpSend.Sender.SendMessage | rtmp_transport.cc:206-252 | While no chunk runs over the cache (Fits), the pieces given to the socket, joined, are the chunk encoding of the message; none is empty or longer than the cache |
| RtmpSend.WholeFits | rtmp_transport.cc:206-252 | A message whose whole encoding is no longer than the cache never runs over it |
| RtmpSend.LongMessageRunsOver | rtmp_transport.cc:226-233 | At chunk size 128, without extended timestamps, every payload of 32504 bytes or more runs over the cache |
| RtmpSend.Sender.Send | rtmp_transport.cc:67-87 | Sends a message and then uses the chunk size that a Set Chunk Size message carries |
| RtmpSend.Sender.SendAll | rtmp_transport.cc:366-376 | Messages sent one after the other give the socket the session of the specification, across changes of the chunk size |
| RtmpSend.SentIsRead | rtmp_transport.cc:206-252 | The reference reader gets back payload, type, length, timestamp (extended ones included) and stream whatever follows; an empty payload sends nothing |
| RtmpSend.SessionIsRead | rtmp_transport.cc:67-87 | A peer that follows the chunk size reads every message of a session, across changes of the chunk size |
| RtmpSend.HeaderFields | net/app_protocol/rtmp/rtmp_stack_packet.cc:213-259 | The fields of a format 0 header are where the specification reads them, with the low byte of the stream id first |
| RtmpReceive.StreamDelivered | rtmpclient.cc:258-272 | For every stream of messages in format 0 chunks and every TCP cut, exactly its messages are delivered in order, with type, timestamp and body, across chunk size changes |
| RtmpReceive.TurnsDelivered | rtmp_transport.cc:89-204 | However the chunk streams take turns, and however TCP cuts the bytes, exactly the messages whose last chunk was sent are delivered, in that order, and what is under way is kept as far as it was sent |
| RtmpReceive.CutsAgree | rtmpclient.cc:258-272 | For every byte stream at all, well formed or not, draining after each piece delivers the same messages and leaves the same bytes as draining once |
| RtmpReceive.RetryUnaffected | rtmp_transport.cc:160-183 | A call on an incomplete chunk delivers nothing, and the retry sees what a single call would have seen |
| RtmpReceive.PieceReceived | rtmp_transport.cc:254-278 | Payload pieces in order rebuild the payload, and the message is delivered exactly with the last piece |
| RtmpReceive.MessageDrained | rtmp_transport.cc:254-278 | A message cut into chunks by the chunk size is delivered exactly once and leaves nothing pending |
| RtmpReceive.ReceiveMore | rtmp_transport.cc:89-204 | A chunk that is complete, or refused, stays so whatever follows it |
| RtmpTransport.RtmpClient.ProcessData | rtmpclient.cc:258-272 | One call buffers the bytes and delivers every complete message; state, remaining bytes and deliveries are those of the reference draining |
| RtmpTransport.RtmpMessageTransport.RecvRtmpMessage | rtmp_transport.cc:89-204 | One chunk is taken, refused or waited for as the reference says; a negative result leaves the state that later calls depend on unchanged |
| RtmpTransport.RtmpMessageTransport.StoreHeader | rtmp_transport.cc:111-172 | The header goes to the entry of its chunk stream; a changed message length is refused, extended timestamps keep 31 bits |
| RtmpTransport.RtmpMessageTransport.RecvPayload | rtmp_transport.cc:254-278 | Takes the next piece of at most the chunk size, finishes exactly when the payload is whole, and changes nothing when the piece is incomplete |
| RtmpTransport.RtmpMessageTransport.DecodeHeader | net/app_protocol/rtmp/rtmp_stack_packet.cc:50-211 | One-, two- and three-byte basic headers and the eleven bytes after them, message stream id included, or nothing when they are not all there |
| RtmpTransport.RtmpMessageTransport.OnRecvMessage | rtmp_transport.cc:340-356 | A Set Chunk Size message of at least 128, compared unsigned, changes the chunk size; smaller ones are ignored |
| RtmpTransport.RtmpChunkData.CopyPayload | net/app_protocol/rtmp/rtmp_stack_packet.cc:404-408 | Appends to the filled part of the payload buffer and leaves its size |
| DataBuf.DataCacheBuf.PushData | net/DataBuf.cc:227-244 | The contents grow by the pushed bytes, in place or in a new buffer |
| DataBuf.DataCacheBuf.PopData | net/DataBuf.cc:246-250 | The contents lose their first bytes and keep the rest in order |
| Md5.DigestOf | base/our_md5.c:249-318 | However a message is cut into updates whose loops end, the digest is that of the padded whole message |
| Md5.Md5Context.Update | base/our_md5.c:249-281 | After an update whose loop ends the state is the fold of the transform over the full blocks of everything that came, the buffer holds the rest, and the counts are 8 times the length modulo 2^64 |
| Md5.EndsExactly | base/our_md5.c:265-275 | The loop over blocks, in 32-bit arithmetic, ends if and only if the piece has no index from 2^32 - 63 on that is congruent to its first block modulo 64 |
| Md5.NeverEnds | base/our_md5.c:270 | A piece of 2^32 - 63 bytes behind 63 buffered ones keeps the loop going for ever |
| Md5.Md5Context.Final | base/our_md5.c:293-318 | Digests the message with the padding and length of sections 3.1 and 3.2 of RFC 1321 and clears the context |
| Md5.Md5Context.Count | base/our_md5.c:257-261 | The two count words, with carry and high bits, add 8 times the length modulo 2^64 |
| Md5.PaddedBlocks | base/our_md5.c:301-308 | The padded message consists of whole blocks and adds between 9 and 72 bytes |
| Md5.PadLength | base/our_md5.c:304-305 | The padding is the shortest non-empty one that ends 8 bytes before a block boundary |
| Md5.FoldConcat | base/our_md5.c:265-275 | Folding over whole blocks and then over more is folding over all of it |
| Md5.Encode | base/our_md5.c:98-112 | The words come out one after the other, low bytes first |
| BitVectors.ShiftBits | net/app_protocol/BitVector.cc:143-174 | Copies exactly the addressed bits and leaves all others alone, overlapping areas included when the source is not before the target |
| BitVectors.WithBitIs | net/app_protocol/BitVector.cc:155-164 | Setting or clearing a masked bit changes that bit of the byte and no other |
| BitVectors.BitVector.PutBits | net/app_protocol/BitVector.cc:43-66 | Writes the low bits of a value as far as there is room, advances by as much, and changes no bit outside |
| BitVectors.BitVector.Put1Bit | net/app_protocol/BitVector.cc:68-81 | The same as writing a single bit |
| BitVectors.BitVector.GetBits | net/app_protocol/BitVector.cc:83-107 | Reads the number of the next bits, those past the end as zero |
| BitVectors.BitVector.Get1Bit | net/app_protocol/BitVector.cc:109-120 | The same as reading one bit |
| BitVectors.BitVector.SkipBits | net/app_protocol/BitVector.cc:122-128 | Advances by the given number of bits, at most to the end |
| BitVectors.BitVector.GetExpGolomb | net/app_protocol/BitVector.cc:130-140 | Returns the code number at the current position and stands after the code |
| BitVectors.GetUndoesPut | net/app_protocol/BitVector.cc:43-107 | What is written with n bits at any position is read back, modulo 2^n |
| BitVectors.UeInverts | net/app_protocol/BitVector.cc:130-140 | Reading inverts the ue(v) code of section 9.1 of H.264 wherever it stands and takes exactly the code; it fits the 32-bit reader if and only if the value is at most 2^32 - 2 |
| BitVectors.LowBitsNum | net/app_protocol/BitVector.cc:57-64 | The low n bits of a word denote it modulo 2^n |

## Left out

- HttpParser.HttpParser.Execute: callbacks return 0 and never pause, so the skip-body answers of on_headers_complete and callback errors do not occur; buffers leave room in the 32-bit count of header bytes; the number of bytes consumed before an error is not stated.
- HttpChunked.ChunkedTransfer: each size line, and the trailer section, fits the header limit of 80 KiB.
- HttpFraming.FramingExact: the block fits what is left of the header limit; header values hold header characters only, as the RFC's do, also where the lenient setting takes others.
- HttpContentLength.ContentLengthExact: the value fits what is left of the header limit.
- TransportFeedback.TransportWideCcFeedback: fewer than 65536 records, as the count has 16 bits, and a buffer with room for one chunk and one large delta per record; the code checks neither, nor the length of runs.
- ReceiverStats.ReportDecodes: losses in an interval below 2^23 and receptions below 2^31, as the signed 32-bit arithmetic needs.
- Amf0Writer.WriteAny: strings and keys of at most 32767 bytes; the encoding function itself covers longer ones, whose lengths wrap.
- RtmpSend.Sender.SendMessage: not where a chunk runs over the cache; what the code then overwrites is not modelled.
- Md5.Md5Context.Update: not for pieces on which the loop never ends, nor for 2^32 bytes and more, which its length parameter cannot hold.
- BitVectors.BitVector.GetBits: not with 32 bits of which none is left, where the code shifts by 32.
- BitVectors.BitVector.GetExpGolomb: fewer than 32 leading zeros, which is every value up to 2^32 - 2.
- Classes for AMF0 values: values are a datatype, so sharing and deletion of objects are not modelled; the kind found by discovery and the marker check of each read are one step.
- The payload buffer of an RTMP chunk stream is a sequence that the message takes over, so its ownership is not modelled.
- RTMP chunk formats 1 to 3 on receipt, and round trips of the message stream id, which is written low byte first and read high byte first.
- The local parser of congestion feedback; a reference decoder stands in for it.
- HTTP URL splitting (`http_parser_parse_url`) and host checks, the lax mode of the parser, and tunnelling after an upgrade.
- The MD5 rounds, which are a parameter, and SHA-1.
- Jitter, link quality and wall-clock times of RTCP, and all other RTCP messages.
- RTMP command packets beyond their AMF0 values, media decoding, the session logic of the client and the handshake.
- Sockets, event loop, timers, threads, media devices, codecs, TLS and WebSocket.
- The ring buffer of `net/DataBuf.cc`, RTSP text parsing and digest authentication.
