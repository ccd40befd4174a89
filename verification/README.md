# ODR-MuxMPE algorithms in Dafny

ODR-MuxMPE multiplexes MPE data into a transport stream. This project models the
self-contained algorithms in its libraries and proves what they are relied on for:

* **UTF-8** (`lib/charset/utf8`). `Rfc3629.dfy` and `Rfc2781.dfy` define UTF-8 and UTF-16
  as the standards do, without looking at the code. `Utf8Core.dfy`, `Utf8Checked.dfy`,
  `Utf8Replace.dfy`, `Utf8Iterator.dfy` and `Utf16Conversion.dfy` model the library and are
  proved against those definitions; `Utf8Unchecked.dfy` and `Utf8UncheckedIterator.dfy`
  model the fast variants and prove that they do the same on valid input.
* **EBU Latin** (`lib/charset/charset.cpp`). `Charset.dfy` is the converter for any table of
  single valid characters, `CharsetRoundTrip.dfy` says what its two directions are to each
  other, `EbuTable.dfy` holds the real table.
* **CRC** (`lib/crc.c`). `Gf2.dfy` and `ShiftRegister.dfy` are polynomials over GF(2) and the
  bit-serial register, with the theorems of error detection. `CrcEngine.dfy` and `Crc.dfy`
  lead from that register to the table lookups on 8, 16 and 32-bit words;
  `CrcGenerators.dfy` and `CrcTables.dfy` are about generated and static tables,
  `CrcCode.dfy` has the loops, `CrcTheorems.dfy` the results for the CRCs themselves.
* **Queue and logger** (`lib/ThreadsafeQueue.h`, `lib/Log.cpp`). `QueueCore.dfy` says what an
  operation does while it holds the mutex. `QueueProtocol.dfy` runs any number of threads
  over it in every interleaving: locking, one pass, unlocking, notifying after unlocking,
  sleeping, waking for no reason. `QueueWakeups.dfy` is about lost wake-ups and deadlock with
  one consumer, `QueueConsumers.dfy` about several. `ThreadsafeQueue.dfy` and `Logger.dfy` are
  the classes, `LogProtocol.dfy` is the logger under every interleaving, and `LoggerQueue.dfy`
  shows that the queue's interleavings are the logger's.
* **Calendar** (`src/utils.cpp`). `Calendar.dfy` compares the closed form with a calendar that
  only knows how to turn to the next day.
* **MPEG sync search** (`src/mpeg.c`). `MpegSync.dfy` reads from a descriptor with arbitrary
  short reads, EAGAIN and errors.

## Conventions

An exception becomes a value of `Outcome` or `Completion`; an output iterator becomes the
sequence written so far, so that what was written before an exception can be stated. Octet
iterators are indices. What the outside world decides is a parameter: the order in which
threads run and which sleeper a notification wakes (`Action`), the state in which other
threads leave the queue while one waits (`wakes`), the outcomes of read(2) (`answers`).
Machine words are bit-vectors of their width; the calendar writes out where C's int overflows
and how C converts numbers.

Four findings about the code are stated as theorems.

* `gregorian2mjd` gives 0 for 16 November 1858 as well as for the 17th, because the conversion
  to an integer truncates towards zero, and a defined but huge number for every date before
  24 November -4713 (astronomical years, with a year 0), because its sum is negative there and wraps around in an unsigned
  variable (`Calendar.ResultIffDayCount`). Before 1 March -8000 the sum itself no longer counts
  day by day (`Calendar.NextDayIsNext`).
* `utf8::next` throws `invalid_code_point` with 0 and not with the code point, because the
  decoder leaves its argument untouched on failure (`Utf8Checked.InvalidCodePointIff`).
* The queue is documented for one consumer. More are safe as long as all wait for the same
  number of elements, and can lose a wake-up as soon as two do not
  (`QueueConsumers.StuckIffNeedsDiffer`).
* The unchecked iterator's ++ stays in place on an octet that starts no sequence, where the
  unchecked `next` moves on (`Utf8UncheckedIterator.StaysWhereNextSteps`).

## Model

| member | source | states |
|---|---|---|
| `Utf8Core.ChecksAcceptChars` | lib/charset/utf8/core.h:92-132 | for a lead octet that announces n octets and n - 1 trail octets, the code-point check and the overlong check together accept exactly the UTF8-char of section 4 of RFC 3629 |
| `Utf8Core.CharHasLength` | lib/charset/utf8/core.h:98-113 | a UTF8-char has the length its lead octet announces, tail octets behind a lead octet, and a lead octet that is no trail octet |
| `Utf8Core.LengthByRange` | lib/charset/utf8/core.h:98-113 | which lead octets announce one, two, three and four octets, and that trail octets and F8 to FF announce none |
| `Utf8Core.IncreaseSafely` | lib/charset/utf8/core.h:137-147 | the iterator moves by one; the three verdicts say whether the range ended, another octet came, or a trail octet |
| `Utf8Core.GetSequence1` | lib/charset/utf8/core.h:152-161 | reads the one octet, or reports an empty range |
| `Utf8Core.GetSequence2` | lib/charset/utf8/core.h:163-176 | stops at the first missing trail octet with the right verdict; otherwise the code point holds the payload bits of two octets |
| `Utf8Core.GetSequence3` | lib/charset/utf8/core.h:178-195 | the same for three octets |
| `Utf8Core.GetSequence4` | lib/charset/utf8/core.h:197-218 | the same for four octets |
| `Utf8Core.ValidateNext` | lib/charset/utf8/core.h:222-272 | accepts exactly when a UTF8-char of RFC 3629 stands at the front, then steps over it and returns its value; otherwise the verdict is the one of the first failing test (code-point check before overlong check) and iterator and code point are restored |
| `Utf8Core.VerdictByChecks` | lib/charset/utf8/core.h:222-272 | the sequence of tests in the code decides the same as the grammar of RFC 3629 |
| `Utf8Core.FindInvalid` | lib/charset/utf8/core.h:287-297 | returns the end of the longest prefix that is a concatenation of UTF8-char |
| `Rfc3629.ValidPrefixIsLongest` | lib/charset/utf8/core.h:287-297 | that prefix is a text and every prefix that is a text lies inside it |
| `Utf8Core.IsValid` | lib/charset/utf8/core.h:299-303 | true exactly for the texts of RFC 3629, which are exactly the encodings of sequences of scalar values |
| `Rfc3629.TextsAreEncodings` | lib/charset/utf8/core.h:299-303 | a string is a text if and only if it encodes some sequence of scalar values, and that sequence is unique |
| `Rfc3629.PrefixFree` | lib/charset/utf8/core.h:98-113 | no UTF8-char is a proper prefix of another |
| `Utf8Core.StartsWithBom` | lib/charset/utf8/core.h:305-313 | true exactly when the range starts with the octets EF BB BF |
| `Utf8Checked.Append` | lib/charset/utf8/checked.h:72-96 | writes the RFC 3629 encoding of a scalar value; throws with the code point and writes nothing for everything else |
| `Rfc3629.EncodeIsChar` | lib/charset/utf8/checked.h:72-96 | the encoding of a scalar value is one UTF8-char that carries it |
| `Rfc3629.CharIsEncoding` | lib/charset/utf8/checked.h:72-96 | every UTF8-char is the encoding of the scalar value it carries, so encoding is a bijection |
| `Utf8Checked.Next` | lib/charset/utf8/checked.h:136-154 | returns the value of the UTF8-char in front and steps over it, or throws and stays; which exception is said by NextByGrammar |
| `Utf8Checked.NextByGrammar` | lib/charset/utf8/checked.h:136-154 | for every nonempty range: not_enough_room exactly when the lead octet announces more octets than there are and all that are there belong to it, invalid_code_point exactly for the complete sequences that may not be encoded, and otherwise invalid_utf8 with the octet in front exactly when no UTF8-char stands there |
| `Utf8Checked.CutShortThrowsRoom` | lib/charset/utf8/checked.h:145-149 | E2 82 throws not_enough_room, FF throws invalid_utf8 with FF |
| `Utf8Checked.ReadAllStops` | lib/charset/utf8/checked.h:189-264 | reading a range to its end completes exactly for texts, and otherwise throws what next throws behind the longest prefix that is a text |
| `Utf8Checked.InvalidCodePointIff` | lib/charset/utf8/checked.h:150-151 | invalid_code_point is thrown exactly for complete sequences that carry a surrogate (ED A0..BF xx, or overlong F0 8D A0..BF xx) or a value above 10FFFF; it carries 0, never the value found |
| `Utf8Checked.SurrogateThrowsZero` | lib/charset/utf8/checked.h:139-151 | the surrogate D800 in three octets and in four, with the exception that carries 0 |
| `Utf8Checked.PeekNext` | lib/charset/utf8/checked.h:156-160 | what next would return or throw |
| `Utf8Checked.Prior` | lib/charset/utf8/checked.h:162-175 | for every input: goes back to the last non-trail octet and reads there, or stops at the start and throws |
| `Utf8Checked.PriorUndoesNext` | lib/charset/utf8/checked.h:162-175 | at every boundary of a text, going forward over a character and back again gives the same position and code point |
| `Utf8Checked.NextUndoesPrior` | lib/charset/utf8/checked.h:162-175 | from every boundary of a text, going back and forward again returns to it |
| `Utf8Checked.BackwardIsReverse` | lib/charset/utf8/checked.h:162-175 | walking a text backwards never throws and yields the code points of the forward walk in reverse |
| `Utf8Checked.Advance` | lib/charset/utf8/checked.h:189-194 | on n characters ends behind exactly the first n code points; where fewer can be read it throws what the first bad sequence deserves |
| `Utf8Checked.Distance` | lib/charset/utf8/checked.h:196-204 | counts the code points, and throws exactly when the range is no text |
| `Utf8Checked.Utf8To32` | lib/charset/utf8/checked.h:257-264 | writes the code points of the longest valid prefix; throws exactly when the range is no text |
| `Utf8Checked.Utf32To8` | lib/charset/utf8/checked.h:248-255 | writes the encodings of the scalar values up to the first other value; throws exactly when there is one |
| `Utf8Checked.Utf32RoundTrips` | lib/charset/utf8/checked.h:248-264 | utf8to32 after utf32to8 is the identity on sequences of scalar values, utf32to8 after utf8to32 on texts |
| `Utf8Checked.RoundTrip32` | lib/charset/utf8/checked.h:248-264 | running both conversions one after the other returns the sequence and never throws |
| `Utf8Replace.ReplaceInvalid` | lib/charset/utf8/checked.h:98-127 | completion and output for every input and every replacement, valid or not |
| `Utf8Replace.ReplaceInvalidDefault` | lib/charset/utf8/checked.h:129-134 | with the default mark it throws exactly when the input ends inside a sequence, and writes a text |
| `Utf8Replace.RunsOutIffTruncated` | lib/charset/utf8/checked.h:109-110 | not_enough_room is thrown exactly when the last non-trail octet of the input announces more octets than are left |
| `Utf8Replace.ReplaceProperties` | lib/charset/utf8/checked.h:98-127 | for a scalar replacement the output is a text, equals the input exactly if that was one when the call returns, and a second application changes nothing |
| `Utf8Replace.ReplacedByPieces` | lib/charset/utf8/checked.h:98-127 | for every input: it splits into characters and invalid pieces, each of these either a lead octet with all the trail octets behind it or one octet that starts nothing, up to an incomplete sequence at the end; the output has the same characters in order and one mark for each invalid piece |
| `Utf8Replace.ReplacedKeepsPrefix` | lib/charset/utf8/checked.h:101-108 | the valid prefix is copied unchanged |
| `Utf8Iterator.CodePointIterator.Make` | lib/charset/utf8/checked.h:274-281 | fails exactly for a position outside the range |
| `Utf8Iterator.CodePointIterator.Deref` | lib/charset/utf8/checked.h:284-288 | what next would return, without moving |
| `Utf8Iterator.CodePointIterator.Equals` | lib/charset/utf8/checked.h:289-294 | refuses iterators over different ranges and compares positions otherwise |
| `Utf8Iterator.CodePointIterator.Increment` | lib/charset/utf8/checked.h:299-303 | fails exactly as next fails there and stays, or passes one UTF8-char; from a boundary of a text it never throws, lands on a boundary, and -- would come back |
| `Utf8Iterator.CodePointIterator.Decrement` | lib/charset/utf8/checked.h:310-314 | at the start it throws not_enough_room and stays; behind trail octets only it throws invalid_utf8 with the first of them, at the start; otherwise it ends at the last other octet and completes as next does from there; from a boundary of a text it never throws, lands on a boundary, and ++ would come back |
| `Utf8Iterator.CodePointIterator.PostIncrement` | lib/charset/utf8/checked.h:304-309 | the same step, and a copy that stayed behind |
| `Utf8Iterator.CodePointIterator.PostDecrement` | lib/charset/utf8/checked.h:315-320 | the same step back, and a copy that stayed |
| `Utf8Iterator.ForwardAndBack` | lib/charset/utf8/checked.h:299-314 | from every boundary of a text inside a range ++ lands on a boundary from which -- returns |
| `Utf8Iterator.BackAndForward` | lib/charset/utf8/checked.h:299-314 | from every boundary of a text but the start -- lands on a boundary from which ++ returns |
| `Utf16Conversion.PairByOffset` | lib/charset/utf8/checked.h:216-216 | the sum with SURROGATE_OFFSET modulo 2^32 is the value of section 2.2 of RFC 2781 |
| `Utf16Conversion.SplitByOffset` | lib/charset/utf8/checked.h:238-243 | the words computed with LEAD_OFFSET and TRAIL_SURROGATE_MIN are those of section 2.1 of RFC 2781 |
| `Utf16Conversion.Utf16To8` | lib/charset/utf8/checked.h:206-231 | converts the characters before the first unpaired surrogate; throws exactly when there is one, with the offending word, and never from append |
| `Utf16Conversion.StopsAt16` | lib/charset/utf8/checked.h:212-226 | the word carried: the one behind an unpaired lead surrogate, the lead surrogate itself at the end, or the lone trail surrogate, at the end of the longest well-formed prefix |
| `Rfc2781.Text16IffPaired` | lib/charset/utf8/checked.h:206-231 | words are UTF-16 text exactly when every high surrogate is followed by a low one and every low one preceded by a high one |
| `Rfc2781.Texts16AreEncodings` | lib/charset/utf8/checked.h:206-246 | UTF-16 texts are exactly the encodings of sequences of scalar values, and that sequence is unique |
| `Utf16Conversion.Utf8To16` | lib/charset/utf8/checked.h:233-246 | writes the UTF-16 encoding of the code points of the longest valid prefix; throws exactly when the range is no text |
| `Utf16Conversion.Utf16RoundTrips` | lib/charset/utf8/checked.h:206-246 | utf8to16 and utf16to8 are inverses on well-formed UTF-16 and on UTF-8 texts |
| `Utf8Unchecked.Append` | lib/charset/utf8/unchecked.h:37-58 | the octets written for any 32-bit value; for scalar values those of the checked append |
| `Utf8Unchecked.NextUndoesAppend` | lib/charset/utf8/unchecked.h:37-92 | the octets written for any value carry its lowest 21 bits, and for every value up to 1FFFFF, surrogates included, the unchecked next reads that value back |
| `Utf8Unchecked.TextIffKeptScalar` | lib/charset/utf8/unchecked.h:37-58 | a text comes out exactly for scalar values and for larger values whose lowest 22 bits are those of a value from 10000 to 10FFFF, which then is what the text says |
| `Utf8Unchecked.Next` | lib/charset/utf8/unchecked.h:60-89 | goes by the lead octet alone and returns the payload bits |
| `Utf8Unchecked.StepIsFront` | lib/charset/utf8/unchecked.h:60-89 | where a character starts this is the checked step with the checked result, inside the range |
| `Utf8Unchecked.PeekNext` | lib/charset/utf8/unchecked.h:91-95 | what next would return |
| `Utf8Unchecked.Prior` | lib/charset/utf8/unchecked.h:97-103 | goes back to the last non-trail octet and reads there |
| `Utf8Unchecked.PriorIsChecked` | lib/charset/utf8/unchecked.h:97-103 | from a boundary of a text this is the checked step back with the checked result |
| `Utf8Unchecked.Advance` | lib/charset/utf8/unchecked.h:112-117 | on a text: same end position as the checked advance, never past the end |
| `Utf8Unchecked.Distance` | lib/charset/utf8/unchecked.h:119-127 | on a text: the number of code points |
| `Utf8Unchecked.Utf8To32` | lib/charset/utf8/unchecked.h:168-175 | on a text: the output of the checked conversion |
| `Utf8Unchecked.Utf32To8` | lib/charset/utf8/unchecked.h:159-166 | on scalar values: the output of the checked conversion |
| `Utf8Unchecked.Utf8To16` | lib/charset/utf8/unchecked.h:144-157 | on a text: the output of the checked conversion |
| `Utf8Unchecked.Utf16To8` | lib/charset/utf8/unchecked.h:129-142 | on well-formed UTF-16: the output of the checked conversion |
| `Utf8UncheckedIterator.CodePointIterator.Deref` | lib/charset/utf8/unchecked.h:186-190 | the payload bits of as many octets as the lead octet announces; at a character its checked value |
| `Utf8UncheckedIterator.CodePointIterator.Equals` | lib/charset/utf8/unchecked.h:191-194 | same buffer and same position |
| `Utf8UncheckedIterator.CodePointIterator.Increment` | lib/charset/utf8/unchecked.h:199-203 | moves by the announced sequence length, zero included; at a character this is the checked step |
| `Utf8UncheckedIterator.CodePointIterator.Decrement` | lib/charset/utf8/unchecked.h:210-214 | goes to the last non-trail octet in front; at a boundary of a text this is the checked step back, undone by ++ |
| `Utf8UncheckedIterator.StaysWhereNextSteps` | lib/charset/utf8/unchecked.h:199-203 | ++ and next step differently exactly on octets that announce no length, where ++ stays in place and next moves by one |
| `Utf8UncheckedIterator.BackFromBoundary` | lib/charset/utf8/unchecked.h:97-103 | at a boundary of a text going back needs no more than the code assumes |
| `Charset.CharsetConverter.constructor` | lib/charset/charset.cpp:62-74 | the conversion table holds the code point of every table entry, in order |
| `Charset.CharsetConverter.Find` | lib/charset/charset.cpp:96-99 | index of the first equal entry, the table size if there is none |
| `Charset.CharsetConverter.EncodeLine` | lib/charset/charset.cpp:92-106 | each code point becomes its index plus one, or a space |
| `Charset.CharsetConverter.Utf8ToEbu` | lib/charset/charset.cpp:76-108 | up to the first error: converts the longest valid prefix and never throws; otherwise throws exactly when the line is no text |
| `Charset.CharsetConverter.EbuToUtf8` | lib/charset/charset.cpp:110-125 | each character becomes its table entry, NUL becomes U+2047 |
| `CharsetRoundTrip.EbuRoundTrip` | lib/charset/charset.cpp:76-125 | EBU Latin to UTF-8 gives a text with one character each, and back every string without NUL returns unchanged, NUL as a space |
| `CharsetRoundTrip.Utf8RoundTrip` | lib/charset/charset.cpp:76-125 | UTF-8 to EBU Latin and back returns the valid prefix with a space for each code point outside the table; the EBU length is the number of code points |
| `CharsetRoundTrip.Utf8RoundTripIdempotent` | lib/charset/charset.cpp:76-125 | doing so a second time changes nothing |
| `EbuTable.EbuLatinIsTable` | lib/charset/charset.cpp:42-58 | the real table: 255 single valid characters, pairwise different, the space in its place, U+2047 not among them |
| `EbuTable.AsciiPlaces` | lib/charset/charset.cpp:42-58 | line feed, vertical tab and the ASCII characters of 20 to 7A stand at their own places but for the four letters there, the dollar sign at AB, and no other place holds ASCII |
| `EbuTable.SmallLetters` | lib/charset/charset.cpp:43-58 | capital and small letters stand in one column of two rows, their code points one apart above FF and 20 apart below |
| `EbuTable.RoundTripsOfRealTable` | lib/charset/charset.cpp:42-125 | both round trips for the real table |
| `ShiftRegister.RunIsRemainder` | lib/crc.c:237-266 | the bit-serial register holds the remainder of reg·x^n + M·x^w on division by the generator over GF(2), which is unique |
| `CrcEngine.FeedAllIsRun` | lib/crc.c:237-266 | octet-wise feeding of a top-aligned register is bit-serial feeding of the message |
| `CrcCode.CrcGlobals.Crc8` | lib/crc.c:237-244 | the loop computes the table-driven CRC of the first octets of the buffer, which for every polynomial whose table is in place is the bit-serial register |
| `Crc.Crc8IsRun` | lib/crc.c:237-244 | for every polynomial, table, seed and message the table-driven register is the bit-serial one |
| `CrcTheorems.Crc8IsRemainder` | lib/crc.c:237-244 | the CRC is the one remainder of seed·x^(8n) + M·x^8 on division by the generator |
| `CrcTheorems.Crc8InPieces` | lib/crc.c:237-244 | crc(crc(c, a), b) = crc(c, a followed by b) |
| `CrcTheorems.Crc8OfSum` | lib/crc.c:237-244 | crc(c xor d, a xor b) = crc(c, a) xor crc(d, b) for messages of one length |
| `CrcTheorems.Crc8DetectsBursts` | lib/crc.c:237-244 | different messages whose differences fit into a window of 8 bits at any bit offset get different CRCs |
| `CrcTheorems.Crc8MissesOnlyGenerator` | lib/crc.c:237-244 | in a window of 9 bits two different messages collide exactly when their difference is the generator itself |
| `CrcTheorems.Crc8Trailer` | lib/crc.c:237-244 | a trailer drives the register to zero exactly when it is the big-endian CRC of what came before |
| `CrcTheorems.Crc8KeepsParity` | lib/crc.c:237-244 | the register keeps the parity of seed and message exactly for the polynomials with an even number of terms |
| `CrcCode.CrcGlobals.Crc16` | lib/crc.c:247-255 | the loop computes the table-driven CRC of the first octets of the buffer, which for every polynomial whose table is in place is the bit-serial register |
| `Crc.Crc16IsRun` | lib/crc.c:247-255 | for every polynomial, table, seed and message the table-driven register is the bit-serial one |
| `CrcTheorems.Crc16IsRemainder` | lib/crc.c:247-255 | the CRC is the one remainder of seed·x^(8n) + M·x^16 on division by the generator |
| `CrcTheorems.Crc16InPieces` | lib/crc.c:247-255 | crc(crc(c, a), b) = crc(c, a followed by b) |
| `CrcTheorems.Crc16OfSum` | lib/crc.c:247-255 | crc(c xor d, a xor b) = crc(c, a) xor crc(d, b) for messages of one length |
| `CrcTheorems.Crc16DetectsBursts` | lib/crc.c:247-255 | different messages whose differences fit into a window of 16 bits at any bit offset get different CRCs |
| `CrcTheorems.Crc16MissesOnlyGenerator` | lib/crc.c:247-255 | in a window of 17 bits two different messages collide exactly when their difference is the generator itself |
| `CrcTheorems.Crc16Trailer` | lib/crc.c:247-255 | a trailer drives the register to zero exactly when it is the big-endian CRC of what came before |
| `CrcTheorems.Crc16KeepsParity` | lib/crc.c:247-255 | the register keeps the parity of seed and message exactly for the polynomials with an even number of terms |
| `CrcCode.CrcGlobals.Crc32` | lib/crc.c:258-266 | the loop computes the table-driven CRC of the first octets of the buffer, which for every polynomial whose table is in place is the bit-serial register |
| `Crc.Crc32IsRun` | lib/crc.c:258-266 | for every polynomial, table, seed and message the table-driven register is the bit-serial one |
| `CrcTheorems.Crc32IsRemainder` | lib/crc.c:258-266 | the CRC is the one remainder of seed·x^(8n) + M·x^32 on division by the generator |
| `CrcTheorems.Crc32InPieces` | lib/crc.c:258-266 | crc(crc(c, a), b) = crc(c, a followed by b) |
| `CrcTheorems.Crc32OfSum` | lib/crc.c:258-266 | crc(c xor d, a xor b) = crc(c, a) xor crc(d, b) for messages of one length |
| `CrcTheorems.Crc32DetectsBursts` | lib/crc.c:258-266 | different messages whose differences fit into a window of 32 bits at any bit offset get different CRCs |
| `CrcTheorems.Crc32MissesOnlyGenerator` | lib/crc.c:258-266 | in a window of 33 bits two different messages collide exactly when their difference is the generator itself |
| `CrcTheorems.Crc32Trailer` | lib/crc.c:258-266 | a trailer drives the register to zero exactly when it is the big-endian CRC of what came before |
| `CrcTheorems.Crc32KeepsParity` | lib/crc.c:258-266 | the register keeps the parity of seed and message exactly for the polynomials with an even number of terms |
| `CrcTheorems.OddFlipsDetected` | lib/crc.c:32-101 | any odd number of flipped bits in a message of any length changes the CRC-8 and the CRC-16 of the static tables |
| `CrcTheorems.Polynomials` | lib/crc.c:32-169 | 0x07, 0x1021 and 0x04c11db7 have the constant term one; the first two generators have an even number of terms, the third has not |
| `CrcTables.StaticTables` | lib/crc.c:32-169 | the three static tables are those of 0x07, 0x1021 and 0x04c11db7 (Annex A of ISO/IEC 13818-1) |
| `CrcCode.CrcGlobals.Serial8` | lib/crc.c:172-190 | the inner loop: eight register steps with the bits of the flipped index coming in, and the correction |
| `CrcCode.CrcGlobals.InitCrc8Tab` | lib/crc.c:172-190 | the whole generated table for any polynomial and initial register; with an all-ones register it is the table of the polynomial, and for the polynomial of the program the static table again |
| `CrcGenerators.Generated8IffOnes` | lib/crc.c:172-190 | for a polynomial with constant term one the generated table is that of the polynomial if and only if the initial register is all ones |
| `CrcCode.CrcGlobals.Serial16` | lib/crc.c:193-212 | the inner loop: eight register steps with the bits of the flipped index coming in, and the correction |
| `CrcCode.CrcGlobals.InitCrc16Tab` | lib/crc.c:193-212 | the whole generated table for any polynomial and initial register; with an all-ones register it is the table of the polynomial, and for the polynomial of the program the static table again |
| `CrcGenerators.Generated16IffOnes` | lib/crc.c:193-212 | for a polynomial with constant term one the generated table is that of the polynomial if and only if the initial register is all ones |
| `CrcCode.CrcGlobals.Serial32` | lib/crc.c:215-234 | the inner loop: eight register steps with the bits of the flipped index coming in, and the correction |
| `CrcCode.CrcGlobals.InitCrc32Tab` | lib/crc.c:215-234 | the whole generated table for any polynomial and initial register; with an all-ones register it is the table of the polynomial, and for the polynomial of the program the static table again |
| `CrcGenerators.Generated32IffOnes` | lib/crc.c:215-234 | for a polynomial with constant term one the generated table is that of the polynomial if and only if the initial register is all ones |
| `CrcGenerators.OnesGenerateTables` | lib/crc.c:172-234 | flipped index, all-ones register and correction cancel for every polynomial |
| `CrcTables.TablesUnique` | lib/crc.c:32-234 | a polynomial has one table, so generated and static tables that fit the same polynomial are equal |
| `CrcCode.CrcGlobals.constructor` | lib/crc.c:32-169 | the program starts with the tables of its three polynomials |
| `QueueCore.PassConserves` | lib/ThreadsafeQueue.h:60-182 | one pass under the lock keeps elements and order; a consumer is notified by every push, discarding or not, and every wakeup request, and by nothing else, a producer exactly when something was given out; it throws exactly when a wakeup is requested |
| `ThreadsafeQueue.ThreadsafeQueue.Push` | lib/ThreadsafeQueue.h:51-94 | appends unless the limit is reached, returns the size, and is the pass of the protocol |
| `ThreadsafeQueue.ThreadsafeQueue.PushWaitIfFull` | lib/ThreadsafeQueue.h:96-117 | waits through every state with too many elements and appends in the first other one |
| `ThreadsafeQueue.ThreadsafeQueue.TriggerWakeup` | lib/ThreadsafeQueue.h:119-127 | sets the request and leaves the elements alone |
| `ThreadsafeQueue.ThreadsafeQueue.TryPop` | lib/ThreadsafeQueue.h:147-161 | takes the front element if there is one |
| `ThreadsafeQueue.ThreadsafeQueue.WaitAndPop` | lib/ThreadsafeQueue.h:163-182 | waits through every state with too few elements and no request; a request comes first and leaves the elements alone |
| `QueueProtocol.InvariantHolds` | lib/ThreadsafeQueue.h:60-182 | in every interleaving of any number of threads: at most one thread holds the lock, elements accepted in lock order are those popped followed by those queued, and there are no more wakeup exceptions than requests |
| `QueueProtocol.ReachableStates` | lib/ThreadsafeQueue.h:60-182 | the same for every state reachable from idle threads and an empty queue |
| `QueueProtocol.HistoriesGrow` | lib/ThreadsafeQueue.h:60-182 | what was accepted or popped stays so, in order |
| `QueueProtocol.SizeStaysBounded` | lib/ThreadsafeQueue.h:60-117 | if every push is limited to N elements the size never exceeds N |
| `QueueProtocol.RequestUntilThrown` | lib/ThreadsafeQueue.h:119-182 | a wakeup request stays until a consumer has its exception, which costs no element |
| `QueueWakeups.NoWakeupIsLost` | lib/ThreadsafeQueue.h:60-182 | with one consumer and one waiting producer, in every reachable state whoever sleeps although it could go on is about to be notified |
| `QueueWakeups.NoWakeupIsEverLost` | lib/ThreadsafeQueue.h:60-182 | the same for every state reachable from idle threads and an empty queue |
| `QueueWakeups.HelperWakes` | lib/ThreadsafeQueue.h:60-182 | the thread between unlock and notify needs at most two steps of its own to wake the sleeper |
| `QueueWakeups.NeverBothAsleepForGood` | lib/ThreadsafeQueue.h:103-182 | if prebuffering is at most the threshold and both sleep, a notification is on its way |
| `QueueWakeups.ThirdThreadWakesOne` | lib/ThreadsafeQueue.h:103-182 | a third thread wakes, in at most two steps, the one of the two that can go on, and its condition still holds when it is awake |
| `QueueWakeups.AwakeGoesThrough` | lib/ThreadsafeQueue.h:103-182 | awake with its condition true and the mutex free, a thread is through after two steps of its own |
| `QueueWakeups.DeadlockIffThresholdTooLow` | lib/ThreadsafeQueue.h:103-182 | a state in which both sleep and all others are idle is reachable if and only if the threshold is below the prebuffering |
| `QueueWakeups.TrappedForGood` | lib/ThreadsafeQueue.h:103-182 | from such a state the two never get anything done by themselves, however often they wake for no reason |
| `QueueConsumers.StuckIffNeedsDiffer` | lib/ThreadsafeQueue.h:36-42 | for any number of consumers, each always waiting for the same number of elements, a state in which nobody is under way and a consumer sleeps needlessly is reachable if and only if two of these numbers differ |
| `QueueConsumers.AlikeNeverStuck` | lib/ThreadsafeQueue.h:36-182 | any number of consumers with equal prebufferings, the default included, never gets into such a state |
| `QueueConsumers.ServedAlways` | lib/ThreadsafeQueue.h:60-182 | the invariant behind it: while a consumer sleeps there are as many notifying threads and awake consumers as consumers that could pass |
| `QueueConsumers.DifferentGetStuck` | lib/ThreadsafeQueue.h:163-182 | a run into such a state for every two different prebufferings |
| `LogProtocol.RegisteredGetsTheRest` | lib/Log.cpp:52-120 | in every run a backend registered by some action ends with exactly the accepted messages from the first one not handed out at that moment to the last one handed out, in order, each with its level and with its text less a newline at the end |
| `LogProtocol.EveryBackendRegistered` | lib/Log.cpp:52-57 | every backend is the one some action of the run registered |
| `LogProtocol.AcceptedAreLogged` | lib/Log.cpp:86-94 | the accepted messages are those logged with a level other than discard, all of them, in order |
| `LogProtocol.InvariantHolds` | lib/Log.cpp:86-129 | every accepted message has been handed out, is in hand or is queued, in that order |
| `LogProtocol.NothingAfterShutdown` | lib/Log.cpp:44-50 | once shutdown is requested only the line already in hand is still delivered |
| `LoggerQueue.QueueRunsAreLoggerRuns` | lib/Log.cpp:86-129 | every interleaving of the queue by clients that log or shut down and the io thread is a run of the logger with the same accepted, delivered and queued messages |
| `LoggerQueue.IoThreadIsWoken` | lib/Log.cpp:96-105 | whenever there is a message or a request to take and the io thread sleeps, another thread wakes it in at most two steps |
| `LogProtocol.DeliversAllIff` | lib/Log.cpp:96-129 | everything accepted can be delivered exactly when no pending message is empty and nobody asked to stop or nothing is queued behind the request |
| `LogProtocol.LineLostAtShutdown` | lib/Log.cpp:44-50 | a line logged before the shutdown may never reach a registered backend |
| `Logger.Logger.RegisterBackend` | lib/Log.cpp:52-57 | the backend joins the list at its end |
| `Logger.Logger.Logstr` | lib/Log.cpp:86-94 | queues the message unless its level is discard |
| `Logger.Logger.IoTurn` | lib/Log.cpp:98-128 | one turn of the loop: stops for a wakeup and keeps the queue, or takes the front message and gives every backend, as often as it is registered, one line of its level and with its text, less the newline if the text ends in one |
| `Logger.Logger.DeliverAll` | lib/Log.cpp:116-120 | every backend gets the line as often as it is registered |
| `Logger.Logger.Shutdown` | lib/Log.cpp:44-50 | the request is used up, the queued messages stay, the list is emptied |
| `Calendar.Gregorian2Mjd` | src/utils.cpp:64-77 | for any three ints the result, or that an int overflows; for dates the result is n exactly in the three cases of the next row |
| `Calendar.ResultIffDayCount` | src/utils.cpp:64-77 | for every date of every year the result is n if and only if no overflow occurs and the date is the n-th day after 17 November 1858, or it is the day before and n is 0, or it is before 24 November -4713 and n is the wrapped negative sum |
| `Calendar.DayBeforeJulianEpoch` | src/utils.cpp:72-76 | 23 November -4713 gets the defined and wrong number 4292567294 |
| `Calendar.NextDayIsNext` | src/utils.cpp:72-74 | the next day has the next number for exactly all dates but the ends of February in a leap year before -7999 and in the year after one, where division towards zero counts the leap day late |
| `Calendar.Monotone` | src/utils.cpp:72-74 | over all dates of all years later dates have greater numbers, except that a leap day before -7999 shares the number of the next day |
| `Calendar.StrictlyMonotone` | src/utils.cpp:72-74 | from 1 March -8000 on the order of dates is the order of numbers, and different dates have different ones |
| `Calendar.EveryDateIsCounted` | src/utils.cpp:64-77 | every date from the epoch on is reached day by day, at its own number |
| `Calendar.OverflowIffFarAway` | src/utils.cpp:72-74 | an intermediate int overflows exactly before one year and after another |
| `Calendar.FourCenturies` | src/utils.cpp:72-74 | 400 years are 146097 days, for exactly all dates but those less than 400 years before 1 March -8000 that count from a year which is no leap year |
| `Calendar.AgreesWithAnnexC` | src/utils.cpp:64-77 | from 1 March 1900 to 28 February 2100 the number is the one of Annex C of ETSI EN 300 468 |
| `MpegSync.ReadData` | src/mpeg.c:124-157 | for every pattern of short reads, EAGAIN and errors: the buffer gets exactly the next octets of the stream, and a result that is no error counts them |
| `MpegSync.ResultCountsOctets` | src/mpeg.c:135-157 | a result is the number of octets taken, or -1 because a read failed |
| `MpegSync.ZeroIffTooEarly` | src/mpeg.c:135-157 | before the end of the stream the result is 0 exactly when every try came too early |
| `MpegSync.TakenIsGiven` | src/mpeg.c:135-157 | as many octets are taken as are wanted and there, or as the answers used have given |
| `MpegSync.ReadMpegHeader` | src/mpeg.c:160-191 | -2 for a size below 4; otherwise result, position and answers used are those of the search: 4 means the window holds the least position k <= 1200 with a sync word, -4 is returned if and only if the last answer used was a failure, and every result says what the stream does not hold and why the search ended |
| `MpegSync.SearchLocates` | src/mpeg.c:168-190 | where each result leaves the stream, and that no sync word came before |
| `MpegSync.SearchCauses` | src/mpeg.c:135-189 | -3 means the end of the stream or two tries that came too early, -7 the end of the stream or two short reads, and -4 is the result if and only if the last answer used was a failure |
| `MpegSync.EmptyStream` | src/mpeg.c:168-173 | an empty stream gives -3, or -4 when one of the two tries fails |
| `MpegSync.SearchFindsIff` | src/mpeg.c:160-191 | for every list of answers the result is 4 if and only if the first sync word is within reach, the first four octets come in two tries and each further octet up to it in two |
| `MpegSync.PromptDecided` | src/mpeg.c:160-191 | if no read is short the stream alone decides: -3 if it is empty, -7 below four octets, 4 exactly when the first sync word stands at a position up to 1200 with its four octets there, else -5 if more than 1204 octets are there and -3 if not |
| `MpegSync.MaskFindsSync` | src/mpeg.c:178-178 | the mask test on the little-endian word finds an octet FF followed by three set bits |

## Left out

- Utf8Checked.Advance: asks that a valid range holds the n characters to advance over; with fewer the source dereferences the end iterator, which has no defined result.
- Logger.Logger.IoTurn: asks that the message it would hand out is not empty, because the source reads the character before the first one of an empty message, which has no defined result; LogProtocol.dfy lets such a message be queued and not be handed out.
- Logger.Logger.Shutdown: finds the io thread between two turns of its loop; a line it has in hand at that moment is still delivered, which is in LogProtocol.NothingAfterShutdown.
- MpegSync.ReadMpegHeader: models the first four octets of the buffer on a little-endian machine; the shift of a whole long also moves octets behind them.
- ThreadsafeQueue.ThreadsafeQueue.PushWaitIfFull: runs in one thread, so a wait that never ends shows as the end of the list of wakes; what the threads do to each other is in QueueProtocol.dfy.
- EbuTable.EbuLatinIsTable: the string literals of the table are modelled as the encodings of their code points, since Dafny has no UTF-8 literals.
- Fairness of the scheduler and the order of memory accesses outside the mutex: the protocol says which steps are possible, not that they are taken.
- Values left in moved-from objects (the copying and the moving push are one operation here), and `empty` and `size`, which only look.
- The postfix steps of the unchecked iterator, which are its prefix steps and a copy.
- Iterators over anything but a contiguous range, and the deprecated `previous` and `is_bom`.
- The syslog, file and tracer backends, the printing to standard error and the sizing loop of vsnprintf: a backend is the list of lines it received.
- `readMpegFrame` and the getters for bit rate, frequency and frame length: table lookups; the Layer I formula does not give frame lengths that could be claimed correct.
- `update_dab_time`, `stringEndsWith`, `header_message`, configuration and the TSDuck calls of `src/MuxMPE.cpp`: no logic of their own to prove.
