# A verified model of the protocol and data code

Dafny models of four components of the repository, with proofs of what they are for:

- **mDNS** (`ports/mdns/mdns.c`): names with compression, questions and answers, their readers, and the choice of
  replies to a query. Files `Mdns*.dfy`.
- **cJSON** (`packages/cJSON-v1.0.2/cJSON.c`): the parser, both printers, the minifier, the linked lists of children
  and their duplication. Files `Json*.dfy`.
- **Stream codecs and digests** of `packages/mongoose-v6.7/mongoose.c`: SHA-1 and MD5 (`Digest`, `Sha1*`, `Md5*`), the
  growing buffer (`Mbufs`), HTTP chunks (`Http*`), CoAP (`Coap*`), WebSocket frames (`WebSocket*`), MQTT SUBSCRIBE
  (`Mqtt`), URI paths (`Uri*`) and base64 (`Base64*`).
- **The WiFi configuration store's base64** (`ports/wifi/wifi_config.c`), in the `Base64` files beside mongoose's.

Each component has specification functions over byte sequences, methods and classes in the form of the program
(arrays, moving positions, linked nodes, loops) that are proved to do what those functions say, and lemmas about the
functions. Formats are stated a second time as the standards describe them, with literal octets (`MdnsRecords`,
`JsonGrammar`, `JsonLayout`, `WebSocketFormat`, `CoapFormat`, `StandardExamples`).
`dafny verify dfyconfig.toml` checks everything.

## What the results say

- **mDNS.** `PacketRoundTrip` is about any run of questions and answers on one packet, with any names of at most 255
  bytes: they are read back exactly when each name was written cleanly, that is, without a jump or with one that is
  aligned with the labels and leads to a name with a jump to spare. Tidy names are (`TidyRunClean`): every label shorter
  than some bound, every byte of a label at least that bound (32 for printable text), and at most five labels, or six
  where the write starts with one. Neither condition can be dropped, as the two concrete runs in `MdnsLimits` show.
  Longer names are excluded because the program keeps positions in a name in `u8` variables.
- **Replies.** Which replies a query gets is stated in labels and octets (`MdnsRecords`): due are the records that some
  question asks for and no known answer gives (`RepliesAreDue`, `HandleQuestion`).
- **cJSON.** Every text in the grammar of RFC 8259 is read as the value it means (`JsonGrammar.TextRead`), `\u` escapes
  included (`EscapesRead`). Printing and parsing are inverse on trees of null, booleans, ints, NUL-free strings, arrays
  and objects; what is printed is laid out character by character in `JsonLayout`. Both printers yield the same text,
  every size they compute is enough, and minifying undoes formatting. The parser's loops stay
  in bounds on all these texts, so the programs themselves are inverse too (`PrintAndParse`).
- **Digests.** Any cut of a message into calls gives the digest of the padded message. The bit count is exact in its
  low 64 bits for messages of any length. Schedule, rotation and padding have laws of their own, and the digests of
  "abc" are those of the RFCs. SHA-1's calls must be shorter than 2^32 - 64 octets, because its loop
  computes `i + 63` in 32 bits; MD5's shorter than 2^32.
- **Streams.** For chunked bodies and WebSocket frames cutting a stream into receive segments changes nothing, on every
  stream whose announced lengths do not wrap the program's sums. Everything the writers produce is such a stream;
  `WithinExactly` and `AcceptsExactly` say exactly which lengths are not; `WrappedChunk` and `WrappedFrame` show one
  each.
- **Exact limits found.** A CoAP message round-trips exactly when no option number or length exceeds 65535, although
  larger ones pass the size check; MQTT topics exactly when no name exceeds 65535 bytes. An mDNS answer is checked
  with its data length cut to 16 bits: data of 65536 bytes and more can be accepted and is then written cut
  (`FitIsChecked`, `LongDataAccepted`), and there is a family of lengths for which a refused answer leaves the write
  offset behind the packet (`RunStaysWithin`, `AnswerOverruns`). Both are limits of the function alone: it is static, and
  its callers pass at most 256 bytes of data (`CallersStayWithin`). The WiFi store's decoder writes one byte more than it
  decodes, so `read_cfg` writes one byte past a buffer of exactly the configuration's length (`StoreAndRead`).

## Assumptions

- lwIP is not part of the repository. `MDNS_LABEL_MAXLEN` is 63, `MDNS_DOMAIN_MAXLEN` 256, `MDNS_READNAME_ERROR`
  0xFFFF, the DNS header 12 bytes. `pbuf_get_at` past the end yields 0, `pbuf_copy_partial` past the end reads short,
  `pbuf_take_at` succeeds exactly when the data fits, `pbuf_memcmp` past the end differs, and `lwip_strnicmp` compares
  labels without regard to the case of ASCII letters.
- Allocation succeeds. Machines are little-endian where byte order matters (the SHA-1 word swap, MD5).
- `size_t` has 32 bits, so that the buffer for an MQTT header has room for four length bytes, and no object takes more
  than half of the address space. Plain `char` is unsigned, as on ARM; it indexes the table of the WiFi store's decoder.
- C strings have no zero byte inside. The bit fields that the programs join with `|` do not overlap and are added.
- The header of an mDNS packet (counts, flags, identifier) enters as parameters; a query's TXT data is what the
  service's callback provides; the host and service names of the responder are 1 to 63 bytes long.
- Random WebSocket masks, received segments and known answers are arbitrary inputs.

## Model

| member | source | states |
|---|---|---|
| MdnsName.Domain.AddLabel | ports/mdns/mdns.c:271-290 | a label of at most 63 bytes is appended with its length byte while the name stays below 256 bytes, the zero label up to 256; otherwise nothing changes |
| MdnsName.ReadLabel | ports/mdns/mdns.c:333-354 | one turn over an uncompressed label: it is copied only when it lies inside the packet and fits the domain, and the turn fails otherwise |
| MdnsName.FollowJump | ports/mdns/mdns.c:310-331 | one turn over a jump: the target is read from two bytes, must lie behind the header and inside the packet, and is followed one level deeper |
| MdnsName.ReadNameLoop | ports/mdns/mdns.c:296-357 | the loop and its recursion yield the offset and the name of the turn-by-turn reader, whatever the bytes; they end because each jump uses one of six levels and each label uses domain space |
| MdnsName.ReadNameInto | ports/mdns/mdns.c:368-373 | the domain is cleared first and then holds exactly what the reader found |
| MdnsName.ReadNameWellFormed | ports/mdns/mdns.c:270-373 | on any packet bytes and any offset the result is the error value or a sequence of labels of 1 to 63 bytes that ends in the zero label, at most 256 bytes long |
| MdnsDecode.JumpsBounded | ports/mdns/mdns.c:296-373 | a compressed name of n labels needs at most n jumps, and fewer than n when it starts with a label (section 4.1.4 of RFC 1035) |
| MdnsDecode.DecodesGrows | ports/mdns/mdns.c:296-373 | every jump goes strictly backwards, so a name that is in a packet stays readable whatever is appended |
| MdnsDecode.ReaderFindsName | ports/mdns/mdns.c:296-373 | the reader returns the name that the bytes spell, and the offset behind it, exactly when it takes at most five jumps; otherwise it returns the error value |
| MdnsDecode.StraddledLabelMisread | ports/mdns/mdns.c:296-373 | when the literal part of a name ends inside a label of the name looked for, the reader cannot return that name |
| MdnsWriter.MatchIsLongest | ports/mdns/mdns.c:728-768 | the walk over a name against one stored name finds the first label boundary from which the rest is a suffix of the stored name reachable by a jump; there is none nearer the start |
| MdnsWriter.CompressMeaning | ports/mdns/mdns.c:728-768 | the offset it hands back points at that suffix inside the stored name, and the length is what is left to write |
| MdnsWriter.BestIsShortest | ports/mdns/mdns.c:786-797 | of all stored offsets the one that leaves least to write is used |
| MdnsWriter.BestCutMeaning | ports/mdns/mdns.c:778-826 | either the whole name is written and no jump, or a jump below 0x4000 to a stored name saves at least a byte |
| MdnsWriter.WriteWithinBounds | ports/mdns/mdns.c:778-826 | when the uncompressed length fits, no inner write fails, the packet length does not change, no byte before the write offset changes, and at most the uncompressed length is written, less when it jumps |
| StandardExamples.CompressedExample | ports/mdns/mdns.c:778-826 | "local" and behind it "a.local" on a fresh packet are the octets 05 "local" 00 01 "a" C0 0C at offset 12 |
| MdnsRoundTrip.CleanWrite | ports/mdns/mdns.c:728-826 | invariant over every write of any name: one that does not jump, or jumps cleanly, is spelled at its offset in every later state of the packet, with at most five jumps, and the table of offsets stays sound |
| MdnsRoundTrip.CleanKeepsTable | ports/mdns/mdns.c:778-826 | the table is sound again after a clean write, so that the condition can be followed over a run |
| MdnsRoundTrip.TidyIsClean | ports/mdns/mdns.c:728-826 | a name whose labels are shorter than a bound and whose bytes are all at least that bound is written cleanly over any table of such names if it has at most five labels, or six and the write starts with one of them |
| MdnsRoundTrip.ReadsBackExactly | ports/mdns/mdns.c:296-373 | any name written over any sound table reads back in every later state of the packet if and only if no jump was written, or the name stored at the offset the search took, which the reader finds there and whose tail is reused, changes over to its own jump at a label of the new name and has a jump to spare below the limit of five; otherwise the reader fails or finds another name |
| MdnsRoundTrip.SeparatedAligned | ports/mdns/mdns.c:743-765 | for names whose length bytes are smaller than all label bytes a suffix match cannot start inside a label |
| MdnsRoundTrip.MisalignedMisread | ports/mdns/mdns.c:743-765 | a match that is not aligned with the labels makes the name unreadable, whatever is written later |
| MdnsLimits.SixLabelsUnreadable | ports/mdns/mdns.c:302-304 | concrete run: after a, b.a and so on up to six labels, writing the six-label name again yields a name the reader refuses |
| MdnsLimits.InnerMatchMisread | ports/mdns/mdns.c:743-765 | concrete run: three well-formed names, the last of which matches inside a label of the second, so that it is not read back |
| MdnsPacket.QuestionAppends | ports/mdns/mdns.c:840-889 | a question is written completely behind the old bytes, name, type and class with the unicast bit, or refused with the packet untouched, exactly by the check of its uncompressed length |
| MdnsPacket.AnswerParts | ports/mdns/mdns.c:908-979 | an answer whose worst case fits is written without an inner failure, changes only the claimed bytes, and its length field is the number of bytes behind it |
| MdnsPacket.AnswerSucceedsExactly | ports/mdns/mdns.c:928-944 | an answer succeeds if and only if it fits with its data cut to the length modulo 2^16; a refused one leaves the packet untouched unless even the cut length exceeds 16 bits |
| MdnsPacket.OversizedDataFails | ports/mdns/mdns.c:928-944 | an answer whose length with the data cut no longer fits 16 bits fails in every case, although the wrapped check may pass |
| MdnsPacket.FitIsChecked | ports/mdns/mdns.c:928-944 | success tells whether the whole answer fits if and only if the data is shorter than 65536 bytes or does not fit even when cut |
| MdnsPacket.LongDataAccepted | ports/mdns/mdns.c:928-966 | concrete case: 65540 bytes of data are accepted wherever four fit, and four are written |
| MdnsRuns.RunStaysWithin | ports/mdns/mdns.c:840-979 | over every run of calls with any names, refused ones among them, the write offset stays within the packet and no byte before it changes, for all answers but those whose length reaches 2^16 only with the name and the fixed fields |
| MdnsRuns.CallersStayWithin | ports/mdns/mdns.c:1111-1210 | so it does over every run of answers with at most 256 bytes of data, which is what the callers pass: nothing, an address, three SRV fields or TXT data |
| MdnsRuns.AnswerOverruns | ports/mdns/mdns.c:928-960 | for every other answer one accepted call on a new packet leads to a packet in which it is refused only after the offset has left the packet; no caller passes such an answer |
| MdnsRuns.NoInnerFailure | ports/mdns/mdns.c:840-979 | wherever such a run has come to, a call whose length fits 16 bits is refused before it writes anything, exactly when its uncompressed size does not fit, or none of its writes fails |
| MdnsOutPacket.FindCut | ports/mdns/mdns.c:743-765 | the loop over the labels finds the same cut as the specification |
| MdnsOutPacket.CompressDomain | ports/mdns/mdns.c:728-768 | a stored name is read and compared; the length to write and the jump target are those of the specification |
| MdnsOutPacket.OutPacket.WriteDomain | ports/mdns/mdns.c:778-826 | the packet, its offset and its table become what the specified write makes of them |
| MdnsOutPacket.OutPacket.AddQuestion | ports/mdns/mdns.c:840-889 | likewise for a whole question |
| MdnsOutPacket.OutPacket.AddAnswer | ports/mdns/mdns.c:908-979 | likewise for a whole answer with static data, a name, or both, the length field being patched in afterwards |
| MdnsInPacket.InPacket.RrInfo | ports/mdns/mdns.c:989-1013 | name, type and class are read at the parse offset, which moves as specified also on failure |
| MdnsInPacket.InPacket.ReadQuestion | ports/mdns/mdns.c:1023-1048 | one question is read, counted and its unicast bit split off; an exhausted counter or offset is an error |
| MdnsInPacket.InPacket.ReadAnswer | ports/mdns/mdns.c:1058-1107 | one answer is read once all questions are, with its cache-flush bit, TTL, and the place of its data, which is skipped |
| MdnsPacketReader.RrImageReads | ports/mdns/mdns.c:989-1013 | bytes that spell a question are read as that question |
| MdnsPacketReader.AnswerImageReads | ports/mdns/mdns.c:1058-1107 | bytes that spell an answer are read as that answer, the name inside its data included, and show the data that was given if and only if that is shorter than 65536 bytes |
| MdnsPacketRoundTrip.QuestionStep | ports/mdns/mdns.c:840-889 | invariant: a question whose name was written cleanly is there in every later state of the packet |
| MdnsPacketRoundTrip.AnswerStep | ports/mdns/mdns.c:908-979 | invariant: an answer whose names were written cleanly is there, with the name inside its data |
| MdnsPacketRoundTrip.PacketRoundTrip | ports/mdns/mdns.c:840-1107 | any sequence of questions and then answers with any names that all succeed on a fresh packet is read back in order (names, types, classes, flag bits, TTLs and exactly the data given, names inside data included) if and only if every name was written cleanly where the run had come to and no data has 65536 bytes or more; the reader then ends where the writer stopped |
| MdnsPacketRoundTrip.QuestionsMisread | ports/mdns/mdns.c:1023-1048 | one name of a run of questions that was not written cleanly, and the questions read are not those written |
| MdnsPacketRoundTrip.AnswersMisread | ports/mdns/mdns.c:1058-1107 | one name of a run of answers that was not written cleanly, or data that was cut, and the answers read are not those written |
| MdnsPacketRoundTrip.TidyRunClean | ports/mdns/mdns.c:840-1107 | a run in which all names are tidy, with at most five labels or with six where the write starts with a label, and no data is cut, is such a run |
| MdnsPacketRoundTrip.ShortAnswersTidy | ports/mdns/mdns.c:908-979 | names of at most five labels are tidy wherever the run has come to |
| MdnsResponder.DomainEqMeans | ports/mdns/mdns.c:402-434 | two names are equal if and only if they have the same labels up to the case of letters |
| MdnsResponder.CompareDomains | ports/mdns/mdns.c:402-434 | the walk over the labels decides exactly that |
| MdnsResponder.Build | ports/mdns/mdns.c:456-603 | labels added one by one and closed make a well-formed name with exactly these labels |
| MdnsResponder.BuildDomain | ports/mdns/mdns.c:546-603 | adding the labels to a cleared domain yields that name |
| MdnsResponder.ReverseNameTidy | ports/mdns/mdns.c:456-484 | the reverse name of any address is tidy and has six labels |
| MdnsRecords.HostSelects | ports/mdns/mdns.c:609-650 | for each of the host's two replies: selected if and only if the host has an address, the class is 1 or 255, the type 1 or 12 as the record has or 255, and the labels are, up to the case of letters, the host's name and "local", or the four octets of the address as decimals in reverse order, "in-addr" and "arpa" |
| MdnsRecords.ServiceSelects | ports/mdns/mdns.c:660-714 | for each of a service's four replies: selected if and only if the class is 1 or 255, the type 12, 33 or 16 as the record has or 255, and the labels are "_services", "_dns-sd", "_udp", "local", or the service's type, "_tcp" or "_udp" as its protocol is, "local", the last two kinds of record with the instance in front |
| MdnsRecords.KnowsMeans | ports/mdns/mdns.c:1560-1690 | what the program takes for known is exactly a record with these labels, class 1, this type, the data octet by octet and by labels, and more than half of the lifetime left |
| MdnsReplies.SuppressHost | ports/mdns/mdns.c:1560-1613 | a known answer takes from the host replies exactly those whose record it gives: the same name up to the case of letters, class IN, the type of the record (1 or 12), the same four octets of address or the host name as data, and more than half of our TTL |
| MdnsReplies.SuppressService | ports/mdns/mdns.c:1615-1690 | likewise for the four replies of a service: the SRV data is two zero fields, the port and the host name, the TXT data the same bytes |
| MdnsReplies.Select | ports/mdns/mdns.c:1522-1532 | one question adds exactly the replies whose record it asks for, of the host and of each service |
| MdnsReplies.HandleQuestion | ports/mdns/mdns.c:1492-1692 | any query packet: no reply when a question or answer does not parse; otherwise a reply is in the masks if and only if it is due, and the reply is unicast if it was to be beforehand or some question asks for it |
| MdnsReplies.RepliesAreDue | ports/mdns/mdns.c:609-714 | a reply is left if and only if some question asks for its record (by class, type and labels) and no known answer gives it (by class, type, labels, data and more than half of its lifetime, section 7.1 of RFC 6762); what asking and giving mean is said in octets and labels, without the functions the program uses |
| JsonRoundTrip.PrintThenParse | packages/cJSON-v1.0.2/cJSON.c:198-313 | parsing the formatted or unformatted text of any printable tree, whatever stands behind it short of continuing it, gives back the same tree and consumes exactly the text |
| JsonRoundTrip.StringParses | packages/cJSON-v1.0.2/cJSON.c:198-313 | any NUL-free string survives escaping and unescaping |
| JsonRoundTrip.NumberParses | packages/cJSON-v1.0.2/cJSON.c:102-121 | the decimal text of an int is read back as that number |
| JsonGrammar.TextRead | packages/cJSON-v1.0.2/cJSON.c:102-553 | every text in the grammar of RFC 8259, with any white space where the grammar allows it, any escapes but a high surrogate without its low one, any form of number and any nesting, is parsed to the value it means and read exactly to its end, and keeps the parser within the text and the buffers it counts out; an escaped NUL or lone low surrogate means no character |
| JsonGrammar.TakeText | packages/cJSON-v1.0.2/cJSON.c:329-344 | so the program does |
| JsonNumbers.NumberRead | packages/cJSON-v1.0.2/cJSON.c:102-121 | a number in the grammar of section 6 of RFC 8259 is read as the digits of both parts as one integer with its sign, and the decimal exponent less the number of digits behind the point |
| JsonUnicode.UnitRead | packages/cJSON-v1.0.2/cJSON.c:183-194 | four hexadecimal digits of any n below 2^16, in either case of the letters, are read as n |
| JsonUnicode.UnitRefused | packages/cJSON-v1.0.2/cJSON.c:183-231 | with anything else among the four the escape yields nothing |
| JsonUnicode.EscapesRead | packages/cJSON-v1.0.2/cJSON.c:198-256 | for every sequence of Unicode scalar values other than 0, a string that writes each as \uXXXX or as a surrogate pair is parsed to bytes that a decoder written from section 3 of RFC 3629 turns back into that sequence, and both loops stay within their bounds |
| JsonUnicode.TakeEscapes | packages/cJSON-v1.0.2/cJSON.c:198-256 | so the program does |
| JsonPow2.Pow2GtIsLeast | packages/cJSON-v1.0.2/cJSON.c:123 | up to 2^30 the shifts and ors give the least power of two that is not below the argument |
| JsonBuffer.PrintBuffer.Ensure | packages/cJSON-v1.0.2/cJSON.c:127-142 | there is room for the bytes asked for and everything written so far is kept through a reallocation |
| JsonBuffer.PrintBuffer.Update | packages/cJSON-v1.0.2/cJSON.c:144-150 | the offset moves behind the piece just printed |
| JsonBuffer.EscapedLength | packages/cJSON-v1.0.2/cJSON.c:284 | the counting loop yields exactly the length of the escaped string |
| JsonBuffer.WriteEscaped | packages/cJSON-v1.0.2/cJSON.c:290-312 | the writing loop yields the quoted, escaped string and a zero in exactly that room |
| JsonBuffer.PrintBuffer.PrintString | packages/cJSON-v1.0.2/cJSON.c:258-313 | both branches print the same quoted text behind the offset and leave the text before it |
| JsonBuffer.PrintBuffer.PrintNumber | packages/cJSON-v1.0.2/cJSON.c:153-172 | an int prints as its decimal digits within the 21 bytes asked for |
| JsonBuffer.PrintBuffer.PrintValue | packages/cJSON-v1.0.2/cJSON.c:378-409 | a value prints as the specified text behind what was there, through every reallocation |
| JsonBuffer.PrintBuffer.PrintArray | packages/cJSON-v1.0.2/cJSON.c:440-474 | likewise for an array |
| JsonBuffer.PrintBuffer.PrintObject | packages/cJSON-v1.0.2/cJSON.c:556-613 | likewise for an object, the short indentation of an empty one included |
| JsonBuffer.PrintBuffered | packages/cJSON-v1.0.2/cJSON.c:351-359 | from any starting size of at least one byte the buffer returned starts with the text of the plain printer and a zero |
| JsonAlloc.PrintArray | packages/cJSON-v1.0.2/cJSON.c:475-517 | the size summed over the entries is enough, and joining them gives the specified text |
| JsonAlloc.PrintObject | packages/cJSON-v1.0.2/cJSON.c:614-664 | the size summed over names and entries is enough, and joining them gives the specified text |
| JsonAlloc.PrintString | packages/cJSON-v1.0.2/cJSON.c:258-313 | the string printed into a buffer of its own has the same text |
| JsonAlloc.PrintAllocated | packages/cJSON-v1.0.2/cJSON.c:348-349 | the text of cJSON_Print and cJSON_PrintUnformatted is the specified one, zero-terminated |
| JsonAlloc.PrintersAgree | packages/cJSON-v1.0.2/cJSON.c:348-359 | the buffered and the allocating printer return the same bytes |
| JsonLayout.LeafLayout | packages/cJSON-v1.0.2/cJSON.c:378-409 | null, false and true print as these words |
| JsonLayout.NumberLayout | packages/cJSON-v1.0.2/cJSON.c:153-172 | exactly the 32-bit integers print through the int branches, as a minus sign if negative and the decimal digits |
| JsonLayout.DigitsLayout | packages/cJSON-v1.0.2/cJSON.c:168 | the digits are the decimal numeral of the number without a leading zero |
| JsonLayout.EscapeLayout | packages/cJSON-v1.0.2/cJSON.c:290-312 | each character prints as it is but for the quote, the backslash and the 31 control characters, five of which have a short escape and the rest \u00 and two lower-case digits |
| JsonLayout.ArrayLayout | packages/cJSON-v1.0.2/cJSON.c:440-517 | an array prints as its items one level deeper, separated by a comma, and a space when formatted, between brackets |
| JsonLayout.ObjectLayout | packages/cJSON-v1.0.2/cJSON.c:556-664 | an object prints as its members one level deeper, separated by a comma, between braces; formatted, each stands on a line of its own behind as many tabs as it is deep, with a colon and a tab behind its name |
| JsonLayout.EmptyObjectLayout | packages/cJSON-v1.0.2/cJSON.c:556-578 | an empty object prints as two braces; formatted, with a line end and one tab less than its depth between them |
| JsonReader.SkipOver | packages/cJSON-v1.0.2/cJSON.c:326 | white space and control bytes are skipped up to the terminating zero |
| JsonReader.TakeNumber | packages/cJSON-v1.0.2/cJSON.c:102-121 | the digit loops yield the specified mantissa, exponent and end |
| JsonReader.StringFits | packages/cJSON-v1.0.2/cJSON.c:203-205 | unless an escape is cut short by the end of its string or by another escape, the loop that counts and the loop that decodes stop at the same quote, and the count is never below the number of bytes decoded |
| JsonReader.PutUtf8 | packages/cJSON-v1.0.2/cJSON.c:235-243 | a code point is stored from its last byte to its first as its UTF-8 form |
| JsonReader.TakeString | packages/cJSON-v1.0.2/cJSON.c:198-256 | for every string that both loops read within the text and the count covers, the decoding loop stays inside the counted buffer and yields the specified string and end |
| JsonReader.TakeArray | packages/cJSON-v1.0.2/cJSON.c:412-437 | the loop over commas collects the specified items, or fails where they do |
| JsonReader.TakeObject | packages/cJSON-v1.0.2/cJSON.c:520-553 | the loop over commas collects the specified members, or fails where they do |
| JsonReader.TakeValue | packages/cJSON-v1.0.2/cJSON.c:363-375 | the branches on the first characters yield the specified value |
| JsonReader.TakeAll | packages/cJSON-v1.0.2/cJSON.c:346 | leading white space is skipped and one value is parsed; asked of the text is only that the strings met are read within it and fit |
| JsonReader.TakeWithOpts | packages/cJSON-v1.0.2/cJSON.c:329-344 | likewise; on request nothing but white space may follow, and the end handed back is behind it |
| JsonReadBack.PrintedIsSafe | packages/cJSON-v1.0.2/cJSON.c:198-256 | the text of any printable tree, whatever its strings contain, keeps the parser within the text and within the buffers it counts out |
| JsonReadBack.PrintAndParse | packages/cJSON-v1.0.2/cJSON.c:329-349 | the printing program followed by the parsing program gives back the same tree and consumes exactly the text, formatted or not, also when nothing may follow |
| JsonMinify.MinifyInPlace | packages/cJSON-v1.0.2/cJSON.c:741-756 | the text before the write position becomes the minified text and a zero; the write position never passes the read position, so nothing unread is overwritten; asked of the text is that its strings and block comments are closed, past whose missing end the program reads on |
| JsonMinifyPieces.MinifyPieces | packages/cJSON-v1.0.2/cJSON.c:741-756 | for any text that consists of white space, line and block comments, closed strings and other characters, in any order, the minified text is that text without the white space and the comments |
| JsonMinifyPrint.MinifyAfterPrint | packages/cJSON-v1.0.2/cJSON.c:741-756 | minifying the formatted or compact text of any printable tree gives the compact text, whatever its strings contain |
| JsonList.CompareNames | packages/cJSON-v1.0.2/cJSON.c:45-50 | two names compare equal exactly when they agree up to the case of letters; a missing name equals none |
| JsonList.Node.Walk | packages/cJSON-v1.0.2/cJSON.c:668 | the child at an index, an index below zero counting as zero, and null past the end |
| JsonList.Node.Add | packages/cJSON-v1.0.2/cJSON.c:677 | the item becomes the last child and every link is consistent |
| JsonList.Node.AddNamed | packages/cJSON-v1.0.2/cJSON.c:678 | likewise, with the item named |
| JsonList.Node.Insert | packages/cJSON-v1.0.2/cJSON.c:690-691 | the item goes before the child at the index, or to the end |
| JsonList.Node.Detach | packages/cJSON-v1.0.2/cJSON.c:683-684 | the child at the index leaves the sequence, unlinked, and the others stay linked in order |
| JsonList.Node.Replace | packages/cJSON-v1.0.2/cJSON.c:692-694 | the child at the index is replaced in its place; no index, no change |
| JsonList.Node.Find | packages/cJSON-v1.0.2/cJSON.c:669 | the first child whose name matches without regard to case |
| JsonList.Node.DetachNamed | packages/cJSON-v1.0.2/cJSON.c:686 | exactly that child is detached |
| JsonList.Node.ReplaceNamed | packages/cJSON-v1.0.2/cJSON.c:695 | exactly that child is replaced, by an item that takes the name |
| JsonList.First | packages/cJSON-v1.0.2/cJSON.c:669 | the position found has the name and none before it has |
| JsonList.Run | packages/cJSON-v1.0.2/cJSON.c:677-695 | over any run of adds, inserts, replacements and detachments, by position or by first name in any case of letters, with unlinked items of their own, the links stay consistent and the children with their names are those of the sequence operations |
| JsonDuplicate.Append | packages/cJSON-v1.0.2/cJSON.c:734-735 | a copied child is linked behind the last one and no tree changes |
| JsonDuplicate.Duplicate | packages/cJSON-v1.0.2/cJSON.c:714-739 | the copy holds the same tree, or only its root, in items that are all new, and is linked to no sibling |
| JsonDuplicate.CopyOwnsAll | packages/cJSON-v1.0.2/cJSON.c:721 | no item of a copied tree has the reference flag, and a tree without it is copied as it is |
| JsonDuplicate.CopyMeansTheSame | packages/cJSON-v1.0.2/cJSON.c:721 | a copied tree, with its reference flags dropped, stands for the same JSON value |
| JsonDuplicate.CopyPrintsTheSame | packages/cJSON-v1.0.2/cJSON.c:714-739 | a copied tree prints the same text, formatted or not, and is printable exactly when the original is |
| StandardExamples.Types | packages/cJSON-v1.0.2/cJSON.h:32-38 | the numbers of the seven types |
| JsonNodes.ReadItem | packages/cJSON-v1.0.2/cJSON.c:378-409 | walking the links of a tree of items finds the value it stands for, or nothing where a printer would stop |
| JsonNodes.PrintItem | packages/cJSON-v1.0.2/cJSON.c:348-409 | printing linked items gives the text of that value |
| JsonNodes.PrintDuplicate | packages/cJSON-v1.0.2/cJSON.c:714-739 | a tree of linked items and its recursive duplicate print the same bytes, and the duplicate consists of new items |
| JsonNodes.Link | packages/cJSON-v1.0.2/cJSON.c:412-553 | the items made for a printable value are new, linked consistently in order, named, and stand for that value |
| JsonNodes.PrintParseLink | packages/cJSON-v1.0.2/cJSON.c:329-553 | linked items, printed, parsed and linked again are new items that stand for the same value |
| Digest.CountsOn | packages/mongoose-v6.7/mongoose.c:1360-1362 | the two 32-bit words stay the low 64 bits of the exact bit count, the carry being seen as a low word that got smaller |
| Digest.Position | packages/mongoose-v6.7/mongoose.c:1363 | the buffer position taken from the count is the number of octets left over |
| Digest.FoldAppend | packages/mongoose-v6.7/mongoose.c:1364-1373 | folding whole blocks piece by piece is folding them at once |
| Digest.RotlBits | packages/mongoose-v6.7/mongoose.c:1202 | a rotation by n takes bit j to bit j + n modulo 32 |
| Sha1.Blk0 | packages/mongoose-v6.7/mongoose.c:1204-1211 | the swapped word replaces the raw one in the circle and is the big-endian word of the block |
| Sha1.Blk | packages/mongoose-v6.7/mongoose.c:1221-1224 | the circle of sixteen words yields word 16 and on of the schedule of eighty |
| Sha1.ScheduleBits | packages/mongoose-v6.7/mongoose.c:1221-1224 | for every block and 16 <= t < 80, bit j + 1 modulo 32 of word t of the schedule is the exclusive or of bit j of the words t-3, t-8, t-14 and t-16 (section 6.1 of RFC 3174) |
| Sha1.MacroIsTemp | packages/mongoose-v6.7/mongoose.c:1225-1239 | the macros with rewritten choose and majority functions add what section 6.1 of RFC 3174 adds |
| Sha1.Turn | packages/mongoose-v6.7/mongoose.c:1225-1239 | one macro call with registers in turn is one round with registers that shift |
| Sha1.Transform | packages/mongoose-v6.7/mongoose.c:1241-1345 | the eighty calls compute the block transform of section 6.1 of RFC 3174 |
| Sha1Stream.Context.Update | packages/mongoose-v6.7/mongoose.c:1356-1374 | the context takes in the data: count, state and held-back octets are those of the longer message |
| Sha1Stream.Context.Final | packages/mongoose-v6.7/mongoose.c:1376-1398 | padding one octet at a time and the eight count octets give the hash of the padded message (section 4 of RFC 3174) |
| Sha1Stream.HashPieces | packages/mongoose-v6.7/mongoose.c:1347-1398 | however a message is cut into calls, the digest is its hash |
| Sha1Stream.PaddingMeans | packages/mongoose-v6.7/mongoose.c:1376-1390 | the padded message is the message, 0x80, as few zeros as make whole blocks, and the eight octets of its length in bits, the highest first |
| Sha1Example.DigestOfAbc | packages/mongoose-v6.7/mongoose.c:1241-1398 | the digest of "abc" is a9993e36 4706816a ba3e2571 7850c26c 9cd0d89d (section 7.3 of RFC 3174) |
| Md5.MacroIsStepped | packages/mongoose-v6.7/mongoose.c:810-817 | the step macro with rewritten functions is the step of section 3.4 of RFC 1321 |
| Md5.Transform | packages/mongoose-v6.7/mongoose.c:833-913 | the sixty-four calls compute the block transform of section 3.4 of RFC 1321 over the table written in the program |
| Md5Stream.Context.Update | packages/mongoose-v6.7/mongoose.c:915-948 | the context takes in the data, through the early return and the block loop |
| Md5Stream.Context.Final | packages/mongoose-v6.7/mongoose.c:950-978 | padding in one or two blocks and the count words give the hash of the padded message (sections 3.1 to 3.5 of RFC 1321) |
| Md5Stream.HashPieces | packages/mongoose-v6.7/mongoose.c:823-978 | however a message is cut into calls, the digest is its hash |
| Md5Stream.PaddingMeans | packages/mongoose-v6.7/mongoose.c:950-968 | the padded message is the message, 0x80, as few zeros as make whole blocks, and the eight octets of its length in bits, the lowest first |
| Md5Example.DigestOfAbc | packages/mongoose-v6.7/mongoose.c:823-978 | the digest of "abc" is 90015098 3cd24fb0 d6963f7d 28e17f72 (section A.5 of RFC 1321) |
| Mbufs.Mbuf.Resize | packages/mongoose-v6.7/mongoose.c:1038-1050 | the contents stay; the size becomes the one asked for unless that is too small for them |
| Mbufs.Mbuf.Trim | packages/mongoose-v6.7/mongoose.c:1052-1054 | the size becomes the length, the contents stay |
| Mbufs.Mbuf.Insert | packages/mongoose-v6.7/mongoose.c:1056-1086 | the bytes stand at the offset between what was before and behind it, also across a reallocation |
| Mbufs.Mbuf.Append | packages/mongoose-v6.7/mongoose.c:1088-1090 | the bytes stand behind the contents |
| Mbufs.Mbuf.Remove | packages/mongoose-v6.7/mongoose.c:1092-1097 | the first n bytes leave; more than are held leave nothing changed |
| HttpChunk.ReadChunk | packages/mongoose-v6.7/mongoose.c:5387-5418 | the digit loop and the two line checks, every sum in 32 bits, find a complete chunk, none, or look outside the buffer |
| HttpChunk.WithinExactly | packages/mongoose-v6.7/mongoose.c:5387-5418 | the program stays in its buffer, and finds exactly the chunk that is there, if and only if the announced length (kept in 32 bits) is not one of three: the one whose sum goes round to the line end just passed, and the two for which the look behind the data starts at the last two addresses |
| HttpChunk.SmallStaysWithin | packages/mongoose-v6.7/mongoose.c:5387-5418 | so it does whenever digits, line ends and length together stay below 2^32 |
| HttpChunk.WrappedChunk | packages/mongoose-v6.7/mongoose.c:5387-5418 | concrete case: FFFFFFFE and a line end are taken for a complete chunk of 2^32 - 2 bytes |
| HttpChunk.ChunkStays | packages/mongoose-v6.7/mongoose.c:5387-5418 | a complete chunk is found the same whatever follows it |
| HttpChunk.UnchunkInParts | packages/mongoose-v6.7/mongoose.c:5420-5475 | on any stream that keeps the program in its buffer, decoding in two parts gives what decoding at once gives, and both parts are such streams |
| HttpChunk.ChunkReads | packages/mongoose-v6.7/mongoose.c:6422-6430 | a chunk as the writer makes it is read back with its exact data |
| StandardExamples.ChunkExample | packages/mongoose-v6.7/mongoose.c:6422-6430 | the chunk of "Hello, world" and the last chunk, octet by octet |
| HttpChunk.StreamDecodes | packages/mongoose-v6.7/mongoose.c:6422-6430 | any non-empty chunks ended by the empty one decode to their concatenation, all their bytes are used, and such a stream keeps the program in its buffer |
| HttpReceive.Collapse | packages/mongoose-v6.7/mongoose.c:5430-5444 | on a buffer whose chunks keep the program within it, the loop leaves the decoded data behind the body so far and every unread byte where it was |
| HttpReceive.HandleChunked | packages/mongoose-v6.7/mongoose.c:5420-5475 | any call on a buffer whose chunks keep the program within it leaves the body, the newly decoded data and the undecoded rest, in this order, and says whether the empty chunk was seen |
| HttpReceive.Receive | packages/mongoose-v6.7/mongoose.c:5420-5475 | over any receive segments of a stream that keeps the program in its buffer, the body is what the undivided stream decodes to |
| HttpReceive.ReceiveWritten | packages/mongoose-v6.7/mongoose.c:5420-5475 | a stream from the writer, cut into any segments, leaves exactly the concatenated chunks |
| Coap.OptionBytes | packages/mongoose-v6.7/mongoose.c:11312-11335 | the first byte of an option is never the payload marker 0xFF |
| Coap.ExtReads | packages/mongoose-v6.7/mongoose.c:10994-11021 | an extended delta or length up to 65535 is read back |
| Coap.OptionsRead | packages/mongoose-v6.7/mongoose.c:11040-11122 | options in ascending order that fit 16 bits are read back in order and the reading stops at the marker or the end |
| Coap.VerifyMeans | packages/mongoose-v6.7/mongoose.c:11225-11262 | a message passes the checks if and only if its type is at most 3, its token at most 8 bytes, its code class at most 7, its code detail at most 31, and every option has a number not below the one before, at most 65804 above it, and a value of at most 65804 bytes; otherwise the first fault in this order is reported |
| Coap.ParseCompose | packages/mongoose-v6.7/mongoose.c:11124-11343 | a message is composed, and parsing its bytes gives back type, code, id, token, options and payload if and only if no option number or length exceeds 65535; asked of the message is that type, token, code and each option, number by number, are within the limits of the format |
| Coap.LargeOptionLost | packages/mongoose-v6.7/mongoose.c:10994-11020 | concrete case: a message with option 65536 passes every check and is read back with option 0 |
| CoapFormat.ComposeIsMessage | packages/mongoose-v6.7/mongoose.c:11274-11343 | the bytes of every such message have the format of sections 3 and 3.1 of RFC 7252, field by field |
| CoapFormat.TemperatureExample | packages/mongoose-v6.7/mongoose.c:11274-11343 | the request and the response of figure 16 of RFC 7252, octet by octet |
| CoapOptions.OptionList.Add | packages/mongoose-v6.7/mongoose.c:10856-10902 | the new option is inserted behind those whose number is not greater, and the tail points at the last option |
| CoapOptions.AnyOrderSortsStably | packages/mongoose-v6.7/mongoose.c:10856-10902 | whatever the order of the calls the list is sorted, and options of one number keep the order in which they were added |
| CoapOptions.InsertStable | packages/mongoose-v6.7/mongoose.c:10856-10902 | an insertion moves no other option relative to its like |
| CoapCodec.PacketSize | packages/mongoose-v6.7/mongoose.c:11225-11272 | the first fault of the message, or exactly the number of bytes composing it takes, which is so if and only if the message is within the limits of the format |
| CoapCodec.SplitOpt | packages/mongoose-v6.7/mongoose.c:11173-11189 | base and extension of a value, with the size of the extension |
| CoapCodec.WriteOption | packages/mongoose-v6.7/mongoose.c:11312-11335 | one option is written as specified behind what was there |
| CoapCodec.ComposeInto | packages/mongoose-v6.7/mongoose.c:11274-11343 | a faultless message is appended to the buffer as specified; a faulty one changes nothing |
| CoapCodec.GetExtOpt | packages/mongoose-v6.7/mongoose.c:10994-11021 | the extension is read, or missing bytes are reported |
| CoapCodec.ReadOption | packages/mongoose-v6.7/mongoose.c:11050-11103 | one option of any packet is read, or the reason why not is given |
| CoapCodec.ReadOptions | packages/mongoose-v6.7/mongoose.c:11040-11122 | the loop collects the options into the list, or frees it and reports the error |
| CoapCodec.ParseInto | packages/mongoose-v6.7/mongoose.c:11124-11149 | any packet is parsed as specified, errors included |
| WebSocket.MaskedTwice | packages/mongoose-v6.7/mongoose.c:8947-8953 | masking twice with the same mask changes nothing |
| WebSocketFormat.MaskedMeans | packages/mongoose-v6.7/mongoose.c:8947-8953 | masking yields exactly the bytes whose bit j is 1 where bit j of the i-th byte and bit j of byte i modulo 4 of the mask differ |
| WebSocketFormat.WireIsFrame | packages/mongoose-v6.7/mongoose.c:8910-8967 | what is sent has the format of section 5.2 of RFC 6455: the first byte, the length in the form that its size selects, the mask and the masked bytes |
| WebSocketFormat.FrameReads | packages/mongoose-v6.7/mongoose.c:8791-8829 | a frame in any of the three forms of length, whatever follows it, is found complete and read as that frame |
| WebSocketFormat.DeliverSplits | packages/mongoose-v6.7/mongoose.c:8791-8875 | what is delivered of a stream is exactly the frames of that format it consists of, and the rest starts with none |
| WebSocketFormat.HelloFrames | packages/mongoose-v6.7/mongoose.c:8910-8967 | the unmasked and the masked "Hello" of section 5.7 of RFC 6455 |
| WebSocketIo.FirstByteMeans | packages/mongoose-v6.7/mongoose.c:8915 | the opcode in the low four bits, FIN unless the flag withholds it, reserved bits zero; a frame without FIN or with opcode 0 is a fragment |
| WebSocket.WireReads | packages/mongoose-v6.7/mongoose.c:8910-8967 | a frame as sent, masked or not, is read back with its first byte, its payload and its exact length, whatever follows it |
| WebSocket.FrameStays | packages/mongoose-v6.7/mongoose.c:8791-8829 | a complete frame is read the same whatever follows it |
| WebSocket.DeliverInParts | packages/mongoose-v6.7/mongoose.c:9008-9016 | on any stream in which no frame length wraps 64 bits, delivering in two parts gives what delivering at once gives, and both parts are such streams |
| WebSocket.AcceptsExactly | packages/mongoose-v6.7/mongoose.c:8824-8827 | computed in 64 bits, the test for a complete frame is right if and only if header and payload length together do not exceed 2^64; a frame taken is then taken in its full length |
| WebSocket.LengthsSound | packages/mongoose-v6.7/mongoose.c:8803-8824 | lengths whose most significant bit is 0, as section 5.2 of RFC 6455 demands, meet that condition |
| WebSocket.WrappedFrame | packages/mongoose-v6.7/mongoose.c:8803-8827 | concrete case: a header that announces 2^64 - 9 bytes is taken for a complete frame of one byte |
| WebSocket.StreamSteady | packages/mongoose-v6.7/mongoose.c:8910-8967 | no frame length wraps in a stream of frames as sent |
| WebSocket.PrefixDelivers | packages/mongoose-v6.7/mongoose.c:8791-8875 | the first part of a stream of frames delivers those it holds completely, in order, and leaves a strict prefix of the next |
| WebSocketIo.SendFrame | packages/mongoose-v6.7/mongoose.c:8955-8967 | a frame in the format of section 5.2 of RFC 6455 with this first byte, mask and payload is appended to the send buffer; nothing before it is changed |
| WebSocketIo.XorAt | packages/mongoose-v6.7/mongoose.c:8836-8840 | each bit of the i-th byte of the range becomes 1 exactly where it differs from that bit of byte i modulo 4 of the mask; no other byte changes |
| WebSocketIo.DeliverOne | packages/mongoose-v6.7/mongoose.c:8791-8875 | when the frame length does not wrap 64 bits, a frame is delivered that the buffer starts with in the format of section 5.2 of RFC 6455, unmasked bit by bit, and its bytes are removed; if there is none, nothing changes |
| WebSocketIo.OnReceive | packages/mongoose-v6.7/mongoose.c:9013-9016 | on a stream in which no frame length wraps, the loop delivers exactly the frames of that format in the buffer, in order, and leaves a rest that starts with none |
| WebSocketIo.Receive | packages/mongoose-v6.7/mongoose.c:9008-9016 | over any receive segments of such a stream the frames delivered are those that the undivided stream consists of |
| WebSocketIo.ReceiveSent | packages/mongoose-v6.7/mongoose.c:8791-8967 | the first bytes of a stream of unfragmented frames, cut into any segments, deliver exactly the frames sent completely and keep only a part of the next |
| Mqtt.VarLenFits | packages/mongoose-v6.7/mongoose.c:9765-9786 | the header fits its buffer of 1 + sizeof(size_t) bytes on a 32-bit machine if and only if the remaining length is below 2^28, the limit of section 2.2.3 of MQTT 3.1.1 |
| Mqtt.FixedHeader | packages/mongoose-v6.7/mongoose.c:9765-9786 | the loop writes the command byte and the variable length of section 2.2.3 of MQTT 3.1.1 into the five bytes of its buffer, for lengths below 2^28 |
| Mqtt.PrependHeader | packages/mongoose-v6.7/mongoose.c:9765-9789 | the header goes in front of the last bytes, fewer than 2^28, and leaves all others in place |
| Mqtt.Send | packages/mongoose-v6.7/mongoose.c:9807-9825 | a complete SUBSCRIBE packet with a remaining length below 2^28 is appended to what is to be sent |
| StandardExamples.SubscribeExample | packages/mongoose-v6.7/mongoose.c:9765-9825 | the SUBSCRIBE packet for a/b and c/d of section 3.8.3 of MQTT 3.1.1, and the variable length of 321, octet by octet |
| Mqtt.DecodeLength | packages/mongoose-v6.7/mongoose.c:9581-9584 | the loop over the length bytes yields the value and the position behind it |
| Mqtt.ParseSubscribe | packages/mongoose-v6.7/mongoose.c:9571-9658 | size, command, QoS, message id and payload of a complete SUBSCRIBE packet |
| Mqtt.NextSubscribeTopic | packages/mongoose-v6.7/mongoose.c:9827-9839 | the topic and QoS at a position and the next position, or -1 at the end |
| Mqtt.ReadTopics | packages/mongoose-v6.7/mongoose.c:9827-9839 | iterating from 0 until -1 yields every topic of the payload |
| Mqtt.SubscribeReads | packages/mongoose-v6.7/mongoose.c:9765-9839 | a packet with a remaining length below 2^28, followed by anything, is read with its exact size, id and QoS; its topics come back if and only if no name exceeds 65535 bytes |
| Mqtt.LongNameMisread | packages/mongoose-v6.7/mongoose.c:9807-9839 | concrete case: a topic name of 65536 bytes is announced and read back as empty, with its first byte as QoS |
| UriPath.ParseComponent | packages/mongoose-v6.7/mongoose.c:4772-4782 | the component up to the next slash, and the position behind that slash or the end |
| UriPath.Backtrack | packages/mongoose-v6.7/mongoose.c:4917-4920 | the last segment of the result is taken off, and the root never is |
| UriPath.NormalizeUriPath | packages/mongoose-v6.7/mongoose.c:4900-4932 | the result is the segments left on the stack, also when it is written over the path itself; what is not absolute is refused |
| UriPath.Normalized | packages/mongoose-v6.7/mongoose.c:4900-4932 | a result is absolute, has no dot segments, and is its own result |
| UriReference.NormalizesAsReference | packages/mongoose-v6.7/mongoose.c:4900-4932 | for every absolute path the result is what the steps of section 5.2.4 of RFC 3986 give |
| Base64.GroupOf | packages/mongoose-v6.7/mongoose.c:375-390 | the codes cut out of three octets with shifts and masks are those of the 24-bit group of section 4 of RFC 4648 |
| Base64.Encoder.Update | packages/mongoose-v6.7/mongoose.c:399-409 | the context takes in the data: codes sent and octets held back are those of the longer message |
| Base64.Encoder.Finish | packages/mongoose-v6.7/mongoose.c:411-420 | after any calls what has been sent is the base64 text of the whole message |
| Base64.EncodeInto | packages/mongoose-v6.7/mongoose.c:422-459 | the one-shot encoder writes the same text and a zero |
| Base64.EncodeConfig | ports/wifi/wifi_config.c:65-107 | the encoder of the configuration store writes the same text and a zero |
| StandardExamples.Base64Alphabet | ports/wifi/wifi_config.c:42 | the codes are the characters of table 1 of RFC 4648 |
| StandardExamples.EncodedPaddedTwice | packages/mongoose-v6.7/mongoose.c:375-390 | "foob" encodes to "Zm9vYg==" (section 10 of RFC 4648) |
| StandardExamples.EncodedPadded | packages/mongoose-v6.7/mongoose.c:375-390 | "fooba" encodes to "Zm9vYmE=" |
| StandardExamples.EncodedWhole | packages/mongoose-v6.7/mongoose.c:375-390 | "foobar" encodes to "Zm9vYmFy" |
| Base64.BufferFits | ports/wifi/wifi_config.c:185 | len * 4 / 3 + 4 bytes hold the text and its zero, with nothing to spare exactly when len leaves 1 when divided by 3 |
| Base64Decode.DecodeInto | packages/mongoose-v6.7/mongoose.c:521-540 | on any input the decoder yields the specified octets, their number and how much was used |
| Base64Decode.DecodeEncode | packages/mongoose-v6.7/mongoose.c:521-540 | decoding the base64 text of any message gives it back and uses the whole text |
| Base64Decode.DecodeConfig | ports/wifi/wifi_config.c:112-144 | on any non-empty input and into any destination the decoder yields 0 for a length that is not a multiple of four; otherwise it stores the specified octets and a zero behind them and nothing else, or stores outside the destination, which happens exactly when that has no room for one byte more than is decoded |
| StandardExamples.DecoderTables | packages/mongoose-v6.7/mongoose.c:482-517 | the two decoding tables invert the alphabet, the first without the top bit of the character; of what is not in it, the first marks padding as 200 and the rest as 255, and the second has 0 |
| Base64Decode.TriplesEncode | ports/wifi/wifi_config.c:112-144 | decoding the base64 text of any non-empty message gives it back with its exact length |
| Base64Decode.StoreAndRead | ports/wifi/wifi_config.c:146-201 | the text fits the buffer allocated; reading it back gives the configuration if and only if the caller's buffer is longer than the configuration, and otherwise stores outside that buffer |

## Left out

- Sockets, TLS, resolver, file serving, CGI, WebDAV, multipart, glob matching and dates in mongoose: input and output, or no specification the code meets.
- The lwIP callbacks, announcing, sending and the sending of selected replies in mDNS: they call code that is not shown.
- mDNS for IPv6: one known AAAA answer clears all addresses, as the code notes itself; reverse names for IPv6 likewise.
- MdnsReplies.HandleQuestion: does not write the question of a legacy query into the reply packet.
- Names of 256 bytes in mDNS writing: the position variables are `u8` and wrap.
- JsonGrammar.TextRead: a `\u` escape of a high surrogate without its low one, which the program drops together with a `\u` escape behind it.
- JsonParse.ParseNumber: a number is a mantissa and a decimal exponent; the rounding of `double` is not modelled, and only numbers that print through the int branches are printed.
- JsonReader.TakeString: requires that both loops end within the text and the count covers what is decoded; a `\u` escape that is cut short by the end of its string or by another escape can break that, and what the program then does is not modelled.
- JsonMinify.MinifyInPlace: texts that end inside a string or a block comment, behind whose end the program reads on, are not modelled.
- JsonAlloc.PrintAllocated: sizes are unbounded numbers; the `int` sizes of the program overflow for texts of 2^30 bytes and more.
- cJSON references and constant names are flags that the list operations do not look at; freeing memory is not modelled.
- JsonReader.TakeArray: collects the children in a sequence; the links between items are made in a second step (JsonNodes.Link).
- JsonReader.TakeObject: likewise.
- HttpReceive.HandleChunked: a handler that sets MG_F_DELETE_CHUNK is not modelled, nor what happens behind a look or move outside the buffer.
- WebSocketIo.DeliverOne: reassembly of fragmented frames, the close flag set after a frame is gone, and what happens after a frame length has wrapped are not modelled.
- Mqtt.DecodeLength: length bytes that do not end within the buffer; the loop then looks one byte behind it.
- Mqtt.ParseSubscribe: complete SUBSCRIBE packets only; the check for incomplete packets is off by one, and for PUBLISH with a QoS above 0 writer and reader disagree on the order of id and topic.
- Mqtt.NextSubscribeTopic: a payload that ends inside a topic, behind whose end the program reads on.
- Mqtt.ReadTopics: likewise.
- The bits of a CoAP result that name the fields present, and the network error.
- MD5's byte order on big-endian machines; the HMAC and hex helpers around the digests.
- The button driver, flash ports, tools and build scripts: wrappers over code that is not shown.
