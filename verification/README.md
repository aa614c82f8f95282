# Proofs about the ETF codec, the bracket matchers and the gateway session

A Dafny model of three parts of the repository, with proofs of what they are for:

* **The External Term Format codec** (`include/etf/`). `Terms` holds the variant `Data` and its `operator<`; `Encoding`
  and `Decoding` say in pure functions which bytes a value becomes and what the decoder makes of any bytes; the classes
  in `Buffers`, `Encoders` and `Decoders` are the growable buffer, `Encoder` and `Decoder` with their fields, loops and
  recursion, each method proved against those functions. `Embedding`, `WireForms`, `Identifiers`, `RoundTrip`, `Codec`,
  `DecoderBounds` and `Exchange` prove the laws: decoding undoes encoding up to a normal form (`Normal`), terms are
  prefix-free, a truncated message is rejected, the wire forms of a value agree, and no decoded value is larger than
  twice its bytes. `WireBytes`, `Atoms`, `KeyOrder` and `Refusals` tell in numbers and places, without those functions,
  which bytes are sent, what atoms mean, in which order keys stand, and what is refused.
* **cpplint's bracket matchers and `NestingState`** (`cpplint.py`). `Brackets` has the forward and backward scans,
  `BracketMatchers` the four functions as loops. `AngleGroups` and `AngleGroupsBack` prove that the matchers accept
  exactly the texts of a grammar, `BracketBalance` that real brackets are balanced in whatever they accept, and `OwnEnds`
  exactly when a match belongs to the character asked about. `Preprocessing` has `UpdatePreprocessor` for blocks, lines
  and line effects of any kind, `Nesting` the class itself, and `Scopes` what a line does, told by what it looks like.
* **The gateway session** (`src/gateway.cc`). `Gateway` is the transition system of the callbacks, cut at every read and
  write of the session, of the heartbeat thread, and of the second event loop that thread runs when it reconnects.
  `Heartbeats`, `Sessions`, `Overlaps`, `WrongRuns`, `Beats` and `Flags` prove properties of all runs. `Connections` is
  the class with the callbacks as methods; a callback carried out without interruption is one of these runs, so the
  properties hold of it. `Answers` proves that all it sends is a function of the events before.

`dafny verify dfyconfig.toml` checks everything.

## What was found

* A string of 2^32 bytes or more, alone or anywhere inside a value, is packed without an error but cannot be read back,
  because its length field is cut off (`include/etf/encode_func.h:225`). `Codec.MessageSurvivesIff` proves, for every
  value that `pack` completes on, that this is the only obstacle besides the values the wire format does not tell apart
  (Undefined from null, a UINT below 256 from a SINT). List and map sizes are checked by `pack`, string sizes are not.
* With two event loops running (the timer thread reconnects while the first loop is still alive) a HELLO can resume a
  session that was given up, or an older one. `Overlaps.ResumesRightlyIffNoClash` says exactly which callbacks must not
  start while the other loop is inside which part of its own, with HELLO cut into its test, its two reads and its send;
  the code rules out none. `Overlaps.OverlapBreaksResume` gives two runs, action by action.
* `CloseExpression` should report the end of the expression that starts where it is asked. `OwnEnds.CloseIsOwnIff`: an
  end it reports is that of the character it starts from if and only if that is not a '<' behind another '<' or behind
  the word `operator`. Such a '<' is not put on the stack (`cpplint.py:1474-1482`), and the end reported is that of the
  first character behind it that is (`OwnEnds.OperatorEndsNextGroup`). The check at `cpplint.py:3250-3255` asks from
  there on a line like `operator<()` (`OwnEnds.LessClosesElsewhere`).
* `ReverseCloseExpression` likewise: the start is its own if and only if it is not asked from the '>' of `->`, of a
  `>=` between spaces or of `operator>` (`cpplint.py:1599-1608`; `OwnEnds.ReverseIsOwnIff`, and
  `OwnEnds.OperatorBeginsNextGroup` for the group reported instead). `cpplint.py:4969-4972` asks from the last '>' of a
  line, which may be that of an arrow (`OwnEnds.ArrowOpensElsewhere`).
* The forward scan means to pass the '>' of `operator>` (`cpplint.py:1508-1510`) but looks for the word one character
  too far to the left. `AngleGroups.OperatorGreaterIff`: it does so if and only if white space stands before the '>'. On
  the line `<operator>>` the end reported is one character too early (`AngleGroups.OperatorGreaterCloses`). The backward
  scan looks in the right place.
* The number of a dispatch can be forgotten: if it comes in one event loop between a resetting close and the first write
  of the reset in the other, later heartbeats carry none although nothing came after it that ends a session
  (`src/gateway.cc:137-142`, `src/gateway.cc:188`). `Beats.KeepsNumbersIff` says that this is the only way; a number
  other than -1 that is sent is never a stale one (`Beats.NoStaleBeat`).
* A heartbeat may carry the number -1 instead of null: `heartbeat` reads the number twice (`src/gateway.cc:88`,
  `src/gateway.cc:91`), and another thread may erase it in between. `WrongRuns.SendsMinusOne` gives a run with a single
  event loop. It cannot happen in a run in which no number is erased between such a test and its read
  (`Beats.CarefulConnection`), and whenever one is, the thread that tested it may go on at once and send -1
  (`Beats.ErasedIsSent`).
* `include/gateway.h:113` says that an error does not lead to a reconnect; `src/gateway.cc:105-108` reconnects when a
  handler is set. The model follows the code; that reconnect writes no field of the session.

## How the source is read

* Integers are unbounded in Dafny, so every machine width is a subset type (`Bytes.byte`, `u16`, `u32`, `u64`, `i32`)
  or an explicit modulus. One byte order is fixed.
* A double is its 64-bit pattern. A `std::map` is the sequence of its pairs in iteration order; `map[key] = value` is
  `Normal.Put`.
* `Data::Null()` and `Data::Undefined()` (`include/etf/data.h:55-61`) pass int literals, which selects the `int32_t`
  constructor; they are taken as the tags they are named for. `int number = value` at `include/etf/encoder.h:129` reads
  the `sint` field of a UINT; it is taken as the UINT's own value read as an int32.
* The `sscanf` call in `decodeFloat` is a parameter, a partial function of the 31 bytes. The answers of `realloc` are a
  parameter, one Boolean for each call.
* A COMPRESSED term (`include/etf/decoder.h:382-400`) sets a flag in the model's cursor, and nothing is claimed of the
  run from there on: the flag counts as an error, so every statement about success excludes it.
* In cpplint, `\s` and `\w` are the ASCII classes. The patterns for `extern "C"`, for `asm` and for a class head that is
  not a template argument are parameters; directives, namespace heads, `\boperator\s*$` and `\s>=\s` are modelled.
* In the gateway, memory is sequentially consistent and every read or write of the session or the sequence number by a
  callback, and by a heartbeat of the timer thread, is a step of its own; a message counts as received at the first
  such step, a heartbeat as sent when it reads its number or finds that there is none. A callback ends where its nested
  `reconnect` begins (no handler writes a session field after it), and the choice in the op 9 branch, which reads
  a variable before it is set, is free. `tries` is never incremented, so the branch for five tries is never taken.

## Model

| member | source | states |
|---|---|---|
| Bytes.LoadStore | include/etf/sysdep.h:70-133 | reading back k stored bytes, most significant first, gives the number reduced modulo 256^k, for every integer and width |
| Bytes.LoadStore16 | include/etf/sysdep.h:128-129 | a 16-bit number survives store and load |
| Bytes.LoadStore32 | include/etf/sysdep.h:130-131 | any number comes back reduced to 32 bits, so a length that does not fit is silently cut off |
| Bytes.LoadStore64 | include/etf/sysdep.h:132-133 | a 64-bit number survives store and load |
| Bytes.StoreLoad | include/etf/sysdep.h:70-133 | storing what was read from k bytes gives the same k bytes |
| Bytes.StoredByte | include/etf/sysdep.h:128-133 | byte i of k stored ones is the digit with the weight 256^(k-1-i), of negative numbers too |
| Bytes.LoadFirst | include/etf/sysdep.h:70-126 | of the bytes read the first has the greatest weight |
| Terms.Trichotomy | include/etf/data.h:135-155 | of two values exactly one holds: the first is less, the second is less, or they are equal after blanking the payload of every double |
| Terms.LessErased | include/etf/data.h:135-155 | the order does not depend on the payload of doubles at any depth |
| Terms.Transitive | include/etf/data.h:135-155 | the order is transitive through arbitrarily nested arrays and maps |
| Terms.StrictWeakOrder | include/etf/data.h:135-155 | irreflexive, transitive, incomparability transitive; incomparable exactly when equal up to double payloads: what `std::map` demands of its keys |
| KeyOrder.LessMeans | include/etf/data.h:135-155 | which of two values is less, told without the operator: Undefined, null, Booleans, SINT, UINT, doubles, strings, arrays, maps in this order; false before true, smaller numbers first, strings by the first byte that differs, arrays and maps by the first position that differs in more than doubles, the shorter first |
| KeyOrder.MapInOrder | include/etf/decoder.h:203-210 | in a map rebuilt from any pairs the keys stand in that order |
| KeyOrder.SortedInOrder | include/etf/encoder.h:197 | a map iterates in that order exactly if its keys strictly increase |
| Normal.PutSorted | include/etf/decoder.h:209 | an assignment keeps the keys of a map strictly increasing |
| Normal.PutThenFind | include/etf/decoder.h:209 | after an assignment, keys equivalent to the assigned one find the new value under the key that was there first, and all other keys find what they found before |
| Normal.PutAllSorted | include/etf/encoder.h:197-210 | assigning the pairs of a map in iteration order rebuilds the same map |
| Normal.MapOfFinds | include/etf/decoder.h:201-212 | in a map rebuilt from any pairs, the first equivalent key stays and the last value wins |
| Normal.BuiltMisses | include/etf/decoder.h:201-212 | a rebuilt map finds nothing for a key that no pair had |
| Normal.NormIsNormal | include/etf/decoder.h:199-213 | a normal form has no Undefined, no UINT below 256, and only maps with strictly increasing keys |
| Normal.NormIsProjection | include/etf/decoder.h:199-213 | normalising twice is normalising once, and a value is its own normal form exactly if it has no Undefined, no UINT below 256 and real maps only |
| BigIntegers.FromDigitsSnoc | include/etf/decoder.h:300-304 | one more digit adds the digit times the power of 256 reached so far |
| BigIntegers.DigitsDenote | include/etf/encode_func.h:154-159 | the digits written for a number add up to it, with no zero digit on top |
| BigIntegers.DigitsUnique | include/etf/encode_func.h:154-159 | every digit string without a zero on top is the one written for its number: the encoding is minimal and unique |
| BigIntegers.DigitsLength | include/etf/encode_func.h:151-159 | a number takes at most k digits exactly if it is below 256^k |
| BigIntegers.DigitAt | include/etf/encode_func.h:154-159 | digit i written is the one with the weight 256^i: the least significant comes first |
| BigIntegers.DecimalAt | include/etf/decoder.h:318-320 | each character of the decimal string is the decimal digit of its place, most significant first, with no leading zero |
| BigIntegers.ParseDecimal | include/etf/decoder.h:318-320 | the decimal string of a number, read as decimal digits, is the number |
| BigIntegers.BigDataDenotes | include/etf/decoder.h:290-329 | for any sign byte and at most eight digits, minimal or not, the delivered UINT, SINT or string stands for exactly the signed sum; a string has at most 21 characters and fits the 32-byte buffer |
| BigIntegers.BigDataOfDigits | include/etf/decoder.h:306-328 | an integer written minimally comes back as UINT below 2^32, as SINT above -2^31 and below 0, and otherwise as its decimal string |
| Encoding.CompletesIffLowEnough | include/etf/encoder.h:120-214 | with every write succeeding, `pack` completes exactly if the nesting height is at most the limit and every list and map size fits; every other end is an exception |
| Encoding.EndsForAReason | include/etf/encoder.h:120-214 | an exception of `pack` tells the truth: the recursion limit only if the value is higher than it, a list or a map too large only if one of 2^32 - 1 elements or more is inside |
| Encoding.CountsFitMeans | include/etf/encoder.h:165-189 | the sizes fit exactly if no list and no map inside has 2^32 - 1 elements or more |
| Encoding.HeightMeans | include/etf/encoder.h:176-206 | the height of a list or map is one more than the highest of its elements, keys and values has |
| WireBytes.FirstByte | include/etf/encode_func.h:117-280 | a message begins with 131, and the first byte of a value is 108 exactly for a list with elements, 106 for the empty one, 116 for maps, 109 for strings, 70 for doubles, 97 for integers from 0 to 255, 98 for other SINTs, 110 for other UINTs, 115 for null, Undefined and Booleans |
| WireBytes.AtomsSent | include/etf/encode_func.h:122-134 | null, Undefined and the Booleans are sent as the short atoms nil, true and false |
| WireBytes.SignedSent | include/etf/encode_func.h:136-147 | a SINT is sent as 97 and its byte, or as 98 and four bytes of two's complement, most significant first |
| WireBytes.UnsignedSent | include/etf/encoder.h:139-141 | a UINT is sent as 97 and its byte, or as a big integer |
| WireBytes.BigSent | include/etf/encode_func.h:149-179 | a big integer is sent as 110, the digit count, 0 or 1 for the sign, and its base-256 digits, least significant first and without a zero on top |
| WireBytes.DoubleSent | include/etf/encode_func.h:186-193 | a double is sent as 70 and its 64 bits, most significant byte first |
| WireBytes.StringSent | include/etf/encode_func.h:221-232 | a string is sent as 109, its length in four bytes, and its bytes |
| WireBytes.ListSent | include/etf/encoder.h:159-184 | a list is sent as 108, its length in four bytes, its elements, and 106: six bytes more than the elements take together |
| WireBytes.ElementSent | include/etf/encoder.h:175-180 | each element stands behind those before it |
| WireBytes.MapSent | include/etf/encoder.h:185-211 | a map is sent as 116, its size in four bytes and its pairs |
| WireBytes.PairSent | include/etf/encoder.h:197-210 | each key stands behind the pairs before it, and its value behind it |
| WireBytes.FormsSpelled | include/etf/constants.h:83-97 | the tags and counts of the lists, tuples, maps and strings that other encoders write |
| Decoding.Read8 | include/etf/decoder.h:113-121 | never reads past the end; either consumes exactly one byte, or sets the flag and stays |
| Decoding.Read16 | include/etf/decoder.h:123-132 | the same for two bytes |
| Decoding.Read32 | include/etf/decoder.h:134-143 | the same for four bytes |
| Decoding.Read64 | include/etf/decoder.h:145-154 | the same for eight bytes |
| Decoding.ReadString | include/etf/decoder.h:215-224 | gives a string of the length asked for and moves behind it, or NULL with the flag set |
| Decoding.DecodeSmallInteger | include/etf/decoder.h:156-158 | keeps offset and flag as every reader does |
| Decoding.DecodeInteger | include/etf/decoder.h:160-162 | the same |
| Decoding.DecodeAtom | include/etf/decoder.h:249-253 | the same, NULL names included |
| Decoding.DecodeSmallAtom | include/etf/decoder.h:255-259 | the same |
| Decoding.DecodeFloat | include/etf/decoder.h:261-279 | the same, whatever `sscanf` makes of the text |
| Decoding.DecodeNewFloat | include/etf/decoder.h:281-288 | the same |
| Decoding.DecodeBig | include/etf/decoder.h:290-329 | the same, for every digit count |
| Decoding.DecodeBinaryAsString | include/etf/decoder.h:341-348 | the same, for every length field |
| Decoding.DecodeStringAsList | include/etf/decoder.h:359-372 | the same; a length that goes past the end is an error before any element is read, any other gives as many elements and consumes as many bytes |
| Decoding.ReadSmallIntegers | include/etf/decoder.h:367-369 | the same for its filling loop |
| Decoding.ReadDigits | include/etf/decoder.h:298-304 | the digit loop yields as many digits as asked for, never leaves the buffer and never clears the flag |
| Decoding.DecodeArray | include/etf/decoder.h:164-175 | terminates for every count and input, the offset neither moves back nor past the end, the flag is never cleared |
| Decoding.DecodeList | include/etf/decoder.h:177-188 | the same, also when the elements or the tail marker are missing |
| Decoding.DecodeMap | include/etf/decoder.h:199-213 | the same for every pair count |
| Decoding.ReadPairs | include/etf/decoder.h:203-210 | the same for the pairs of a map; it gives up only with the flag set |
| Decoding.UnpackPair | include/etf/decoder.h:204-205 | a key and a value read without error consume at least one byte |
| Decoding.DecodeReference | include/etf/decoder.h:402-413 | offset and flag are kept although reading goes on after an error in the node |
| Decoding.DecodeNewReference | include/etf/decoder.h:415-429 | the same |
| Decoding.DecodePort | include/etf/decoder.h:431-437 | the same |
| Decoding.DecodePID | include/etf/decoder.h:439-446 | the same |
| Decoding.DecodeExport | include/etf/decoder.h:448-454 | the same for three terms |
| Decoding.ReadIds | include/etf/decoder.h:423-425 | the same for the id loop |
| Decoding.Dispatch | include/etf/decoder.h:466-513 | whatever the tag, the offset stays in the buffer and moves forward only, and no flag is cleared |
| Decoding.Unpack | include/etf/decoder.h:456-516 | terminates on every byte sequence with the remaining bytes as measure, the offset is monotone and at most the size, the flag is sticky, and success consumes at least one byte |
| Decoding.Start | include/etf/decoder.h:98-111 | construction leaves the offset within the buffer, even an empty one |
| Refusals.VersionRefused | include/etf/decoder.h:98-111 | the decoder starts without error exactly if the first byte is 131 or the version is skipped; otherwise nothing is decoded |
| Refusals.NothingToRead | include/etf/decoder.h:456-464 | after an error, or at the end of the buffer, `unpack` gives Undefined and does not move |
| Refusals.TagRefused | include/etf/decoder.h:466-513 | every byte but the 20 known tags is refused as a tag; only 80 is counted as COMPRESSED |
| Refusals.TailRefused | include/etf/decoder.h:177-188 | a list whose elements are followed by anything but 106, or by nothing, gives null and an error |
| Refusals.CompoundRefused | include/etf/decoder.h:164-213 | a tuple or map of which a part fails gives Undefined |
| Refusals.ShortRefused | include/etf/decoder.h:215-279 | a binary, atom or float that goes past the end gives Undefined and an error behind its length |
| Refusals.BigRefused | include/etf/decoder.h:290-296 | a big integer of more than eight digits gives null and an error behind its sign |
| Refusals.FloatRead | include/etf/decoder.h:261-279 | the 31 characters of a FLOAT_EXT give the double `sscanf` reads, or null and an error |
| Reading.FixedWidthReads | include/etf/decoder.h:113-154 | at any cursor, each of the four reads gives the number whose bytes, most significant first, stand there and moves behind them, or 0 with the flag set and without moving exactly if there are too few bytes |
| Reading.BigAt | include/etf/decoder.h:331-334 | `decodeSmallBig` on the bytes written for an integer below 2^64 in size delivers it and consumes exactly those bytes |
| RoundTrip.DecodeEncoded | include/etf/decoder.h:456-516 | wherever the bytes of a value with encodable lengths stand, `unpack` gives its normal form, consumes exactly them and leaves the flag clear |
| DecoderBounds.PutAllNodes | include/etf/decoder.h:203-210 | a map built by assignments has no more nodes than what was assigned |
| DecoderBounds.ExportBounded | include/etf/decoder.h:448-454 | three terms and their keys stay within the bound, for which each term has to save one node |
| DecoderBounds.DispatchBounded | include/etf/decoder.h:402-516 | behind a tag, a value read from n bytes has at most 2n + 1 nodes |
| DecoderBounds.UnpackBounded | include/etf/decoder.h:456-516 | a value read without error from n bytes has at most 2n - 1 nodes, map keys included, in every form; and in any value returned, with or without error, every map is strictly sorted and every string shorter than 2^32 bytes |
| DecoderBounds.CallsStayInside | include/etf/decoder.h:456-516 | over any number of calls of `unpack` on any bytes: the offset moves forward only and never past the end, an error once seen stays and stops everything, and no more calls succeed than there are bytes |
| Embedding.UnpackMoves | include/etf/decoder.h:456-516 | a successful run depends only on the bytes it reads: the same bytes elsewhere in another buffer give the same value and consume the same number |
| Embedding.CompressedMoves | include/etf/decoder.h:456-516 | a run that reaches a COMPRESSED tag reaches it in every buffer that holds the same bytes at some place |
| Codec.MessageRoundTrip | include/etf/encoder.h:120-214 | a message followed by any bytes passes the version check, decodes to the normal form of the value sent and is consumed exactly |
| Codec.MessageSurvivesIff | include/etf/encoder.h:120-214 | for every value `pack` completes on: the value received equals the value sent exactly if it has no Undefined, no UINT below 256, real maps, and only strings below 2^32 bytes |
| Codec.SamePlace | include/etf/encoder.h:128-211 | two encodings starting at the same place have the same length and the same normal form |
| Codec.PrefixFree | include/etf/encoder.h:128-211 | if the encoding of one value is a prefix of that of another, they are equal and so are the normal forms |
| Codec.StringRoundTripIff | include/etf/encode_func.h:221-232 | a string round-trips exactly if it is shorter than 2^32 bytes |
| Codec.BigRoundTrip | include/etf/encode_func.h:149-179 | every integer below 2^64 in size, unsigned or signed, is written in at most 8 minimal digits and comes back as exactly that integer |
| WireForms.TermAt | include/etf/decoder.h:456-516 | a byte string accepted as a whole decodes to the same value wherever it stands |
| WireForms.TermsArePrefixFree | include/etf/decoder.h:456-516 | of the byte strings the decoder accepts, from whatever encoder, none is a proper prefix of another |
| WireForms.TruncationIsDetected | include/etf/decoder.h:456-516 | a term cut short anywhere is rejected, and not because a COMPRESSED tag was reached |
| Codec.TruncatedMessageIsRejected | include/etf/decoder.h:98-111 | no proper prefix of a message is accepted, the empty one included, and none reaches a COMPRESSED tag |
| RoundTrip.EncodedIsTerm | include/etf/encoder.h:120-214 | what `pack` writes is accepted as a whole, as the normal form |
| WireForms.TermsAt | include/etf/decoder.h:164-175 | any terms in a row decode, element by element, to the array of their values |
| WireForms.PairTermsAt | include/etf/decoder.h:203-210 | any pairs of terms in a row are read, pair by pair and in order |
| WireForms.MapDecodes | include/etf/decoder.h:199-213 | a MAP_EXT decodes to the map built from the values of its terms in the order they come |
| WireForms.WireFormsAgree | include/etf/decoder.h:164-197 | a sequence of terms decodes alike as list, small tuple and large tuple, the empty one also as NIL_EXT, and a list of bytes also as STRING_EXT |
| WireForms.StringDecodes | include/etf/decoder.h:359-372 | a STRING_EXT of up to 65535 bytes is the list of its bytes as small integers |
| Atoms.AtomMeans | include/etf/decoder.h:226-259 | an atom in either form gives null exactly for the names nil and null, a Boolean exactly for true and false, and its own name as a string for every other name |
| Atoms.AtomIsBinary | include/etf/decoder.h:226-259 | an atom in either form decodes as the BINARY_EXT of the same bytes does exactly if it is none of those four |
| Atoms.BinaryMeans | include/etf/decoder.h:341-348 | a BINARY_EXT gives its bytes as a string |
| Atoms.KeysSpelled | include/etf/decoder.h:402-454 | the keys are "node", "id", "creation", "serial", "mod", "fun" and "arity" |
| Identifiers.AtomDecodes | include/etf/decoder.h:249-253 | an ATOM_EXT with its length stored in two bytes is consumed exactly, and means what its name means |
| Identifiers.SmallAtomDecodes | include/etf/decoder.h:255-259 | the same for SMALL_ATOM_EXT |
| Identifiers.BigDecodes | include/etf/decoder.h:290-339 | SMALL_BIG_EXT and LARGE_BIG_EXT with any sign byte and any digits: exactly the integer they stand for with up to eight digits, an error with more |
| Identifiers.BigDelivered | include/etf/decoder.h:306-328 | in which form: UINT with at most four digits and a plus, SINT with at most four digits, a minus and 31 bits, otherwise the decimal string with a minus sign if negative |
| Identifiers.MapOfIsRecord | include/etf/decoder.h:199-213 | a map built from pairs with different keys finds each of them and nothing else |
| Identifiers.NodeIdCreation | include/etf/decoder.h:402-437 | in a decoded reference or port a lookup of each key finds its own field, and no other key is there |
| Identifiers.NodeCreationId | include/etf/decoder.h:415-429 | the same for a new reference |
| Identifiers.NodeIdSerialCreation | include/etf/decoder.h:439-446 | the same for a pid |
| Identifiers.ModFunArity | include/etf/decoder.h:448-454 | the same for an export |
| Identifiers.ReferenceDecodes | include/etf/decoder.h:402-413 | node, 32-bit id and creation byte in a row decode to the map of them and are consumed exactly |
| Identifiers.NewReferenceDecodes | include/etf/decoder.h:415-429 | id count, node, creation and ids in a row decode to the map of them, the ids in order |
| Identifiers.PortDecodes | include/etf/decoder.h:431-437 | node, id and creation in a row decode to the map of them |
| Identifiers.PIDDecodes | include/etf/decoder.h:439-446 | node, id, serial and creation in a row decode to the map of them |
| Identifiers.ExportDecodes | include/etf/decoder.h:448-454 | module, function and arity terms in a row decode to the map of them |
| Buffers.AmortisedGrowth | include/etf/encode_func.h:90-112 | over any sequence of writes, whatever `realloc` refuses, at most two bytes are carried over for each byte held and the capacity is at most the larger of 1 MiB and twice the length |
| Buffers.FirstBlockServes | include/etf/encode_func.h:96-103 | as long as all bytes fit the first block, of 2^20 bytes, none is asked for |
| Buffers.Buffer.constructor | include/etf/encoder.h:91-95 | a new buffer is empty and has the initial size |
| Buffers.Buffer.Realloc | include/etf/encode_func.h:99 | null exactly if memory is refused, else a fresh block of the new size with the contents carried over |
| Buffers.Buffer.Write | include/etf/encode_func.h:90-112 | appends all bytes, growing as the numbers say, or returns -1 with block and contents untouched exactly if memory is refused |
| Buffers.CopyInto | include/etf/encode_func.h:105 | the bytes end up at their place and what is before them stays |
| Buffers.Append | include/etf/encode_func.h:114-147 | a fixed term is appended as a whole, or nothing if memory is refused |
| Buffers.AppendBinary | include/etf/encode_func.h:221-232 | header and bytes are appended; if memory is refused, a prefix of them |
| Buffers.StoreDigits | include/etf/encode_func.h:154-159 | the digit loop leaves exactly the minimal digits of a 64-bit number, at most eight, from the third byte on |
| Buffers.AppendUnsignedLongLong | include/etf/encode_func.h:149-164 | the big-integer bytes of the number are appended, or a prefix of them if memory is refused |
| Buffers.AppendLongLong | include/etf/encode_func.h:166-179 | the same for signed numbers other than the least |
| Encoders.Encoder.constructor | include/etf/encoder.h:91-101 | a new encoder holds the version byte and nothing else |
| Encoders.Encoder.Release | include/etf/encoder.h:103-108 | hands out the block itself and how much of it is in use |
| Encoders.Encoder.Pack | include/etf/encoder.h:120-214 | appends exactly the bytes of the value if it completes and a prefix of them however else it ends; how it ends is decided by height, sizes and refused memory alone |
| Encoders.Encoder.PackInteger | include/etf/encoder.h:128-142 | the branch for integers appends the bytes of its value, through the reading of an unsigned number as signed |
| Encoders.Encoder.PackScalar | include/etf/encoder.h:143-163 | the branches with one writer append the bytes of their value |
| Encoders.Encoder.PackList | include/etf/encoder.h:159-184 | header, elements and tail marker, or a prefix of them |
| Encoders.Encoder.PackElements | include/etf/encoder.h:175-180 | the loop appends the elements one after the other up to the first that does not complete, with whose end it ends |
| Encoders.Encoder.PackMap | include/etf/encoder.h:185-211 | header and pairs, or a prefix of them |
| Encoders.Encoder.PackPairs | include/etf/encoder.h:197-210 | the loop appends keys and values in iteration order |
| Encoders.Encoder.PackPair | include/etf/encoder.h:198-209 | the key is packed before the value, and the value only if the key completed |
| Decoders.Decoder.constructor | include/etf/decoder.h:98-111 | starts behind the version byte, or at it with the flag set, as the pure reading says |
| Decoders.Decoder.Read8 | include/etf/decoder.h:113-121 | value, offset and flag are those of the pure read, with no access outside the first `size` bytes |
| Decoders.Decoder.Read16 | include/etf/decoder.h:123-132 | the same |
| Decoders.Decoder.Read32 | include/etf/decoder.h:134-143 | the same |
| Decoders.Decoder.Read64 | include/etf/decoder.h:145-154 | the same |
| Decoders.Decoder.ReadString | include/etf/decoder.h:215-224 | the same, NULL included |
| Decoders.Decoder.DecodeSmallInteger | include/etf/decoder.h:156-158 | computes the pure function of the same name |
| Decoders.Decoder.DecodeInteger | include/etf/decoder.h:160-162 | the same |
| Decoders.Decoder.DecodeAtom | include/etf/decoder.h:249-253 | the same |
| Decoders.Decoder.DecodeSmallAtom | include/etf/decoder.h:255-259 | the same |
| Decoders.Decoder.DecodeNewFloat | include/etf/decoder.h:281-288 | the same |
| Decoders.Decoder.DecodeSmallBig | include/etf/decoder.h:331-334 | the same |
| Decoders.Decoder.DecodeLargeBig | include/etf/decoder.h:336-339 | the same |
| Decoders.Decoder.DecodeBinaryAsString | include/etf/decoder.h:341-348 | the same |
| Decoders.Decoder.DecodeSmallTuple | include/etf/decoder.h:374-376 | the same |
| Decoders.Decoder.DecodeLargeTuple | include/etf/decoder.h:378-380 | the same |
| Decoders.Decoder.DecodeFloat | include/etf/decoder.h:261-279 | computes the pure function, with an error if `sscanf` reads no number |
| Decoders.Decoder.DecodeBig | include/etf/decoder.h:290-329 | computes the pure function; more than eight digits are an error |
| Decoders.Decoder.ReadMagnitude | include/etf/decoder.h:298-304 | the accumulators are 64-bit registers, yet `value` ends as the exact sum of the digits times powers of 256 |
| Decoders.AccumulateDigit | include/etf/decoder.h:300-304 | one turn of that loop loses no bit of `value`, although `b` wraps to 0 after the eighth digit |
| Decoders.Decoder.DecodeStringAsList | include/etf/decoder.h:359-372 | the filling loop computes the pure function |
| Decoders.Decoder.DecodeArray | include/etf/decoder.h:164-175 | the filling loop computes the pure function and stops at the first error |
| Decoders.Decoder.DecodeList | include/etf/decoder.h:177-188 | computes the pure function; a list without its tail marker is an error |
| Decoders.Decoder.DecodeMap | include/etf/decoder.h:199-213 | the loop of assignments builds the map of the pairs read in order |
| Decoders.Decoder.DecodeReference | include/etf/decoder.h:402-413 | the assignments to the map compute the pure function, field by field |
| Decoders.Decoder.DecodeNewReference | include/etf/decoder.h:415-429 | the same |
| Decoders.Decoder.DecodeIds | include/etf/decoder.h:422-425 | the id loop computes the pure function |
| Decoders.Decoder.DecodePort | include/etf/decoder.h:431-437 | the same |
| Decoders.Decoder.DecodePID | include/etf/decoder.h:439-446 | the same |
| Decoders.Decoder.DecodeExport | include/etf/decoder.h:448-454 | the same |
| Decoders.Decoder.DispatchLeaf | include/etf/decoder.h:467-497 | the branches for terms without subterms compute the pure branch for the same tag |
| Decoders.Decoder.DispatchCompound | include/etf/decoder.h:480-507 | the branches for terms with subterms do, and terminate |
| Decoders.Decoder.DispatchReference | include/etf/decoder.h:498-501 | the same for references of either kind |
| Decoders.Decoder.DispatchIdentifier | include/etf/decoder.h:502-507 | the same for ports, pids and exports |
| Decoders.Decoder.Unpack | include/etf/decoder.h:456-516 | terminates on every buffer and leaves value, offset and flag exactly as the pure function says, so that every law of that function is one of this method |
| Exchange.PackMessage | include/etf/encoder.h:120-214 | with memory granted, packing with the default limit completes exactly on values of height at most 256 with sizes that fit, and leaves the version byte and the encoding |
| Exchange.UnpackMessage | include/etf/decoder.h:456-516 | a decoder over a buffer computes the pure reading of its bytes |
| Exchange.PackThenUnpack | include/etf/encoder.h:120-214 | end to end: what one end packs, the other unpacks to its normal form, consuming the message exactly and seeing no error, whatever follows the message; and whenever packing completes, the value itself arrives exactly if it is in normal form and its strings fit |
| Brackets.LineBack | cpplint.py:1454-1529 | on a line without angles, a scan back from where a forward scan matched or ran out retraces it to its start |
| Brackets.LineForth | cpplint.py:1576-1650 | the same the other way round |
| Brackets.CloseThenReverse | cpplint.py:1532-1573 | if `CloseExpression` finds an end, `ReverseCloseExpression` from there finds the start, across any number of lines |
| Brackets.ReverseThenClose | cpplint.py:1653-1688 | and the other way round |
| Brackets.MatchersAreInverse | cpplint.py:1532-1688 | on lines without angles, one matcher leads from a bracket to another exactly if the other one leads back |
| BracketMatchers.PopAngles | cpplint.py:1491-1492 | the popping loop removes exactly the angles on top |
| BracketMatchers.FindEndOfExpressionInLine | cpplint.py:1454-1529 | the loop over the line computes the forward scan, with its three kinds of end |
| BracketMatchers.CloseExpression | cpplint.py:1532-1573 | the loop over lines carries the stack as the multi-line scan does |
| BracketMatchers.FindStartOfExpressionInLine | cpplint.py:1576-1650 | the backward loop with its skipped characters computes the backward scan |
| BracketMatchers.ReverseCloseExpression | cpplint.py:1653-1688 | the backward loop over lines computes the multi-line scan |
| BracketBalance.ForwardKeepsPending | cpplint.py:1467-1526 | whatever a character is taken for, the text scanned since the opening character at the bottom of the stack stays balanced but for the real brackets above it; at a match the last character closes that bottom one and the text in between is balanced |
| BracketBalance.BackwardKeepsAwaiting | cpplint.py:1593-1648 | the same backwards, skipped operators included |
| BracketBalance.CloseIsBalanced | cpplint.py:1532-1573 | whenever an end is reported, on the same line or another, the round, square and curly brackets in the range derive from a grammar of balanced text, whatever the angles were taken for |
| BracketBalance.CloseIsGroup | cpplint.py:1532-1573 | unless it starts from a '<' behind another '<' or behind `operator`, the range up to the reported end is the character it starts from, balanced text, and its own closing counterpart |
| BracketBalance.ReverseIsBalanced | cpplint.py:1653-1688 | the same for a reported start |
| BracketBalance.ReverseIsGroup | cpplint.py:1653-1688 | unless it starts from the '>' of `->`, of a spaced `>=` or of `operator>`, the range from the reported start is its own opening counterpart, balanced text, and the character it starts from |
| AngleGroups.CloseIsGrammar | cpplint.py:1454-1573 | `CloseExpression` reports an end from a bracket or a '<' that is no operator if and only if a group of a grammar starts there, across any number of lines, and then its end: brackets in pairs, angles in pairs, `->` and operators passed, a '<' undone by a shift, and, inside brackets only, semicolons and angles left alone; from a '<' before another one or a '=' it reports none |
| AngleGroups.GroupIsClosed | cpplint.py:1454-1529 | from the start of such a group the scan reports its end |
| AngleGroups.ParseGroup | cpplint.py:1454-1529 | whenever the scan reports an end it has read such a group |
| AngleGroups.AnglesEnd | cpplint.py:1504-1519 | the end reported from a '<' is that of a '>' behind neither '-' nor `operator` and one character more |
| AngleGroups.OperatorMeans | cpplint.py:1480 | what counts as `operator` before an angle: the whole word, and nothing but white space behind it |
| AngleGroups.OperatorGreaterIff | cpplint.py:1508-1510 | the '>' of `operator>` is passed if and only if white space stands before it |
| AngleGroups.OperatorGreaterCloses | cpplint.py:1508-1510 | on the line "<operator>>" the end reported is that before the last character |
| AngleGroupsBack.ReverseIsGrammar | cpplint.py:1576-1688 | the same equivalence for `ReverseCloseExpression`, from a closing bracket or a '>' that is no operator, with the operators as the backward scan knows them |
| AngleGroupsBack.GroupIsOpened | cpplint.py:1576-1650 | from the end of such a group the backward scan reports its start |
| AngleGroupsBack.ParseGroupBack | cpplint.py:1576-1650 | whenever it reports a start it has read such a group |
| OwnEnds.CloseIsOwnIff | cpplint.py:1454-1573 | an end reported is that of the character it starts from (where a scan with that character on its stack takes it off) if and only if that is not a '<' behind another '<' or behind `operator` |
| OwnEnds.NeverTheSameEnd | cpplint.py:1454-1573 | with one more '<' under the stack, a scan over any lines never ends where it ends without it |
| OwnEnds.OperatorEndsNextGroup | cpplint.py:1474-1482 | from such a '<' the end reported is that of the first character behind it on the line that is pushed, and the range from there is that character, balanced text, and its counterpart |
| OwnEnds.LessClosesElsewhere | cpplint.py:3250-3255 | from the '<' of "operator<()" the end reported is that of the parentheses |
| OwnEnds.ReverseIsOwnIff | cpplint.py:1576-1688 | a start reported is that of the character it starts from if and only if that is not the '>' of `->`, of a spaced `>=` or of `operator>` |
| OwnEnds.NeverTheSameStart | cpplint.py:1576-1688 | with one more '>' under the stack, a scan backwards never ends where it ends without it |
| OwnEnds.OperatorBeginsNextGroup | cpplint.py:1599-1608 | from such a '>' the start reported is that of the nearest character before it that is pushed, although the scan skips a character unseen, and the range up to there is its group |
| OwnEnds.ArrowOpensElsewhere | cpplint.py:4969-4972 | from the '>' of "()->" the start reported is that of the parentheses |
| Preprocessing.RunsStayInStep | cpplint.py:2386-2440 | in every state on the way, the run over all lines and the run over the kept ones agree, or the latter waits with what the outermost passed `#else` saved |
| Preprocessing.NoElseIsKept | cpplint.py:2411-2422 | the kept lines have no `#else` and no `#elif` |
| Preprocessing.ElseBranchesDoNotCount | cpplint.py:2386-2440 | for well-nested conditionals to any depth and any effect of a line on the stack, the final state is the one with every branch behind `#else` or `#elif` deleted, and `pp_stack` returns to its start |
| Preprocessing.StrayDirectivesDoNotCount | cpplint.py:2423-2440 | from a new state the same holds even with stray directives, if the end is not behind an `#else` |
| Preprocessing.OnlyKeptLinesCount | cpplint.py:2386-2440 | for well-nested conditionals the final stack is what the effects of the kept lines make of the first one, one after the other, as if there were no directives |
| Preprocessing.PlainConditionals | cpplint.py:2407-2440 | conditionals without `#else` and `#elif` change nothing |
| Preprocessing.ElseStartsOver | cpplint.py:2411-2422 | behind an `#else` or `#elif`, the first or a later one, the stack is the one before the `#if`, whatever the branches before did |
| Nesting.NestingState.constructor | cpplint.py:2270-2291 | a new state has empty stacks |
| Nesting.NestingState.UpdatePreprocessor | cpplint.py:2386-2440 | the method on the fields is the step of the pure model for the directive on the line |
| Nesting.NestingState.Update | cpplint.py:2443-2605 | one call is one step of the pure model, and the previous top is remembered |
| Nesting.NestingState.ConsumeOne | cpplint.py:2575-2604 | one token opens, completes, drops or closes a block |
| Nesting.NestingState.ConsumeRest | cpplint.py:2568-2605 | the brace loop takes the tokens from left to right |
| Nesting.NestingState.UpdateAll | cpplint.py:2443-2605 | over a whole file with well-nested conditionals, `pp_stack` ends as it began, and the stack is what the effects of the lines before `#else` and `#elif` make of it |
| Nesting.FirstToken | cpplint.py:2571 | the position of the first brace, semicolon or closing parenthesis, if there is one |
| Nesting.BalancedBracesKeepStack | cpplint.py:2568-2605 | once the innermost block has seen its brace, text with balanced braces leaves the stack as it was, whatever else is in it |
| Scopes.DirectiveMeans | cpplint.py:2407-2426 | which lines count as directives: `#` and one of the whole words if, ifdef, ifndef, else, elif, endif, with nothing but white space before each |
| Scopes.HeadFound | cpplint.py:2494-2504 | a namespace head is the word, white space, a name or none, and the rest of the line |
| Scopes.BracesPair | cpplint.py:2568-2605 | on any text: the blocks it closes without having opened them are taken off, and those it opens without closing them are on top, each with its line number and its brace seen |
| Scopes.BraceOpens | cpplint.py:2578-2588 | what kind of block a brace opens |
| Scopes.ParenthesesCounted | cpplint.py:2468-2488 | the innermost block alone is touched: its count changes by the '(' less the ')' of the line, and an `asm` statement begins and ends with its parentheses |
| Scopes.PlainLine | cpplint.py:2443-2605 | on a line without heads, or with a class head inside parentheses, the braces alone count |
| Scopes.NamespaceLine | cpplint.py:2490-2507 | a line that begins with any number of namespaces adds one open block for each before its other braces count |
| Scopes.NamespaceWaits | cpplint.py:2501-2507 | a namespace whose brace is not on the line waits for it on top of the stack |
| Scopes.ClassLine | cpplint.py:2519-2537 | a class head outside parentheses adds a block that waits for its brace, gets it, or is dropped again if a semicolon, a ')' or a '}' comes first |
| Scopes.BraceCompletes | cpplint.py:2575-2577 | a later line whose first token is a brace completes a waiting block |
| Connections.Connection.constructor | include/gateway.h:98-104 | the initial values of the fields |
| Connections.Connection.SendIdentify | src/gateway.cc:50-71 | the session is forgotten before the identify is sent: the pieces of an identify without interruption |
| Connections.Connection.SendResume | src/gateway.cc:73-82 | the current session and sequence number are sent: the pieces of a resume without interruption |
| Connections.Connection.SendHeartbeat | src/gateway.cc:84-95 | the current sequence number is sent, or null if it is -1: the pieces of a heartbeat without interruption |
| Connections.Connection.OnError | src/gateway.cc:102-109 | the callback is the sequence of its pieces in the transition system |
| Connections.Connection.OnConnection | src/gateway.cc:111-118 | the same |
| Connections.Connection.OnDisconnection | src/gateway.cc:120-148 | the same: three codes end the heartbeat, three others forget the session |
| Connections.Connection.OnHello | src/gateway.cc:156-186 | the same for op 10: a resume or an identify, then the rest |
| Connections.Connection.Greet | src/gateway.cc:165-186 | the rest of op 10: `acked`, then the timer thread or a heartbeat |
| Connections.Connection.OnMessage | src/gateway.cc:150-209 | the same, for every op |
| Connections.Connection.On | src/gateway.cc:102-233 | the same for every callback |
| Connections.AloneIsHandle | src/gateway.cc:102-233 | starting a callback and carrying it on without interruption is a run, and ends in the fields its method leaves |
| Connections.AllAloneIsHandleAll | src/gateway.cc:102-233 | so it is for callbacks one after the other |
| Connections.SerialConnectionIsRight | src/gateway.cc:97-233 | whatever callbacks a new connection handles one after the other, each RESUME on HELLO is right and one timer thread at most is started |
| Connections.Connection.OnAll | src/gateway.cc:97-233 | the class itself: after any sequence of callbacks both hold of its history |
| Answers.HistoryIsKept | src/gateway.cc:50-209 | whatever callbacks a new connection handles one after the other, all it sends is a function of the events before: a RESUME on HELLO exactly if a session with an id can be resumed, else an identify; heartbeats on HELLO (or the timer thread, the first time) and on op 1 with the number the events leave; a RESUME on op 9; and session, number and flags say what the events say |
| Answers.HandleAnswers | src/gateway.cc:102-209 | so it is for each callback |
| Heartbeats.StepKeepsTimerInv | src/gateway.cc:165-197 | every step of every thread keeps the invariant that ties the flags to what has happened |
| Heartbeats.RunKeepsTimerInv | src/gateway.cc:165-197 | so does every run |
| Heartbeats.AckBetweenBeats | src/gateway.cc:170-183 | in a disciplined history, between two heartbeats of the timer, after the clearing of `acked` that belongs to the first and before the one that belongs to the second, a message with op 10 or 11 set it |
| Heartbeats.OneTimerThread | src/gateway.cc:167-169 | in every run at most one timer thread is started |
| Heartbeats.HeartbeatDiscipline | src/gateway.cc:165-197 | in every interleaving, the second event loop included, at most one timer thread is started and every two timer heartbeats have such a message between them |
| Beats.NoStaleBeat | src/gateway.cc:84-95 | in every interleaving a heartbeat with a number other than -1 carries the `s` of the last dispatch before it |
| Beats.NumberMeans | src/gateway.cc:50-52 | the number the events leave is that of the last dispatch, none if an identify or a resetting close came after it |
| Beats.KeepsNumbersIff | src/gateway.cc:137-189 | under a discipline that lets callbacks run one at a time, no number that the events leave is missing, except while an identify is on its way, if and only if no dispatch with a number starts between a resetting close and the first write of its reset in the other loop |
| Beats.BeatSaysNumber | src/gateway.cc:84-95 | whoever sends a heartbeat sends the number kept at that moment, or null if that is -1 |
| Beats.CarefulConnection | src/gateway.cc:88-92 | in every run in which no number is erased between the test and the read of a heartbeat, no heartbeat carries -1 as a number |
| Beats.ErasedIsSent | src/gateway.cc:88-92 | wherever one is erased in between, the thread that has tested it can send -1 with its next step |
| Flags.RunKeepsFlags | src/gateway.cc:102-182 | at every point of every run `open` says whether the last connection event was an opening, `acked` whether it was set since it was last cleared, and `heartbeatOpen` is false exactly if a close 4004, 4010 or 4011 has come, but for one whose callback is still to carry it out |
| Flags.TimerDecides | src/gateway.cc:169-183 | the timer thread goes on, reconnects and beats as those events say |
| Flags.HeartbeatEnds | src/gateway.cc:131-135 | once such a close has been carried out the timer thread sends one more heartbeat at most |
| Flags.ReconnectIsTheEnd | src/gateway.cc:173-176 | once the timer thread reconnects it sends no heartbeat any more, and when it comes back nothing follows |
| Sessions.LiveIffResumable | src/gateway.cc:187-195 | the session computed event by event is the one that can be resumed: that of the last READY, with the `s` of the last dispatch, with no identify and no close 4003, 4007 or 4009 since |
| Sessions.StartStanding | src/gateway.cc:102-209 | what the first piece of a callback does to the two fields and to the session that can be resumed |
| Sessions.PieceStanding | src/gateway.cc:50-209 | what each later piece does to them; a RESUME of the live session keeps the history right |
| Sessions.StartKeepsSound | src/gateway.cc:102-209 | a start that does not clash with what the other loop has still to do leaves the rest of both callbacks harmless |
| Sessions.PieceKeepsSound | src/gateway.cc:50-209 | so does every later piece, and a RESUME about to be sent is for the live session |
| Sessions.BeginKeepsSession | src/gateway.cc:102-209 | starting a callback that does not clash keeps fields and history in agreement, up to what the two loops have still to read, write and send |
| Sessions.ProceedKeepsSession | src/gateway.cc:102-209 | so does every later piece of a callback |
| Sessions.TickKeepsSession | src/gateway.cc:169-183 | so does every step of the timer thread |
| Sessions.HarmlessRunKeepsSession | src/gateway.cc:97-233 | so does every run without clashes |
| Sessions.ResumeCorrectness | src/gateway.cc:156-163 | in every run without clashes, each RESUME sent on HELLO carries the non-empty id of the last READY and the `s` of the last dispatch, with no identify and no resetting close in between |
| Overlaps.ClashBreaksResume | src/gateway.cc:120-195 | any single kind of clash that is let through, before a write, before an identify or inside a HELLO, makes some run send a wrong RESUME |
| Overlaps.ResumesRightlyIffNoClash | src/gateway.cc:97-233 | under any discipline that lets callbacks run one at a time, all runs, interleaved at every read and write of the session, resume correctly if and only if no clash is let through |
| Overlaps.OverlapBreaksResume | src/gateway.cc:140-195 | two runs of the code as it is, named action by action, end in a wrong RESUME: in one a close 4009 stands between the READY and the RESUME, in the other the RESUME is for the session before the last READY |
| WrongRuns.ResumesAfterReset | src/gateway.cc:140-195 | the first run: it can be taken, its last events are as listed, and the session it resumes cannot be resumed |
| WrongRuns.ResumesOldSession | src/gateway.cc:73-82 | the second run: a whole READY between the two reads of a HELLO |
| WrongRuns.SendsMinusOne | src/gateway.cc:84-95 | a run with one event loop: the timer thread tests the number, a close 4009 and a new connection are handled, and the heartbeat sent then carries -1 |

## Left out

- Encoders.Encoder.constructor: does not model a refused initial block, which the source does not check before writing to it (`include/etf/encoder.h:93`).
- Buffers.Buffer.Write: does not model overflow of `size_t`, because the sum of a length and a size is taken as unbounded.
- Buffers.AppendLongLong: does not model the least 64-bit integer, whose negation is undefined in C++.
- Decoding.Dispatch: does not model zlib; a COMPRESSED term counts as an error from which on nothing is claimed.
- Decoding.Unpack: likewise.
- Codec.MessageSurvivesIff: when a string does not fit, the bytes behind its cut-off length may be read as a COMPRESSED term, which counts as an error.
- Decoders.Decoder.Unpack: does not model zlib; a COMPRESSED term counts as an error from which on nothing is claimed.
- Decoders.Decoder.DecodeArray: does not model the memory that `std::vector` reserves for the claimed length before anything is read.
- Decoders.Decoder.DecodeFloat: does not model what `sscanf` accepts, which is a parameter.
- Encoders.Encoder.Release: does not model that the destructor frees the block that was handed out.
- Nesting.NestingState.Update: does not model that `previous_stack_top` is the block itself and sees later changes to its counts; blocks are values here.
- Nesting.NestingState.Update: leaves the class pattern and `InTemplateArgumentList` as a parameter, and leaves out `CheckBegin`, `CheckEnd`, access control and class indentation, which report errors and do not change the stacks.
- Connections.Connection.OnMessage: leaves out decoding the packet and the user's handlers; what the packet says is the parameter.
- Overlaps.ResumesRightlyIffNoClash: takes the copying of a `std::string` as one step, and reads memory as sequentially consistent.
- Connections.Connection.SendIdentify: leaves out the contents of the message.
- Connections.Connection.SendHeartbeat: covers the calls from callbacks; the call from the timer thread is two steps of the transition system.
- Connections.Connection.OnDisconnection: leaves out the user's handler and the reconnect, which write no field of the session.
- Connections.Connection.OnAll: is about one event loop; what two loops do is proved of the transition system.
- The accessors and index operators of `Data` (`include/etf/data.h:157-195`): conversions that return a field.
- `decodeString`, `erlpack_append_atom`, `erlpack_append_string`, `erlpack_append_tuple_header`: nothing in the repository calls them; the forms the last two write are covered by `WireForms.WireFormsAgree`.
- Byte-order detection and the Windows branches of `include/etf/sysdep.h`.
- Sockets, sleeps, random delays, and the contents of identify, presence and properties in `src/gateway.cc`.
- `src/broker.cc`, `src/utils.c` and `tools/docker.cc`: AMQP calls, printing, process exit and environment variables.
- The other checks of `cpplint.py`, its file and option handling, and the cleansing of lines.
