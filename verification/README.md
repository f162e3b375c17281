# End-to-end protection: a verified model

This project models the AUTOSAR end-to-end (E2E) protection library in `isoft/e2e`, and the CRC
routines it rests on in `isoft/e2e/src/Crc.c` and `isoft/crc/src/crc.cpp`, and proves what the three
layers promise.

* **CRC routines.** One parametrised definition (`Crc.Calculate`) covers the six CRCs of the AUTOSAR
  Specification of CRC Routines. The bit-serial loop and the table loop are methods proved against
  it. CRC steps are linear and injective, which yields detection of every change confined to as many
  consecutive bytes as the CRC has. The six CRCs are fixed by the entries of their tables and by values
  they return (`CrcValues`).
* **Profiles.** Protecting writes length, counter, data ID and CRC into a byte array in place;
  checking parses them, recomputes the CRC with its field cut out and classifies the counter.
  Profiles 4, 5, 6, 7 and 8 are instances of one layout, and 5 to 8 share their code (`Endpoint`); 4m
  and 7m put an origin behind it (`Origins`); 22, 1 and 2 have half-byte counters. Round trips, the
  rejection of damage and of foreign data IDs, exactly as far as it goes, and the statuses over a
  lossy channel are proved for all messages, configurations and runs. Both ends are also stated in terms
  of bytes at offsets: `Format` says what a protected message holds, `Accepted` what a check accepts, and
  `SendAll` that the code sends the messages the channel results speak of.
* **State machine.** A class keeps the circular window in an array, with the counting and clearing
  loops of `E2E.c`, in both variants (before and from R20-11). Its window refines a sliding window over
  the history; the index stays legal exactly for the sizes stated; detection and recovery take the
  stated number of checks; what a change of state leaves in the window is stated for all sizes
  (`Transitions`); and OKs keep VALID in a window that grew exactly for the limits stated (`Growth`).
* **Composition.** `EndToEnd` runs profile 4's protect and check, the status mapping and the state
  machine together, over channels that lose and over channels that damage messages.

Words are sequences of bits, the most significant first, and bytes are integers below 256. Integers
of the source have explicit widths where they can wrap around: counters, signed differences, the
window index, the index of the data ID nibble in profile 1. The differences in profiles 7 and 8 can
overflow signed arithmetic in C; they are taken to wrap around. State structures are classes whose
methods update their fields; message buffers and the status window are arrays.

What the code asks of its callers without checking it appears as preconditions: a message whose length
passes the range check has room for the header (`Scheme.Fits`, `Envelope.Fits`), profile 1's fields
lie inside the data and do not overlap (`P01.Config.Fits`), window sizes are at least one and fit in
the buffer (`Machine.Fits`). Where code and comments disagree, the model follows the code; the lemmas
`Reactions.MissedAtLapEnd`, `IndexSafety.Counterexample`, `P07m.ConsecutiveWrong`,
`P02.UnreportedJump`, `Tolerance.ThirdUndeserved`, `Tolerance.SecondUndeserved`, `Growth.LeftOnOk`,
`P01.UnnoticedId`, `P01.UnnoticedChange`, `P22.UnnoticedChange` and `P01.IdIgnored` exhibit cases where
a promise fails, and the lemma beside each says exactly when.

## Model

| member | source | states |
|---|---|---|
| `Crc.GetReflection` | isoft/e2e/src/Crc.c:390-466 | the reflection loops mirror a word of any width |
| `Crc.CalculateRuntime` | isoft/e2e/src/Crc.c:525-549 | the bit-serial loops compute Calculate, for every buffer, start value and first-call flag |
| `CrcTheory.Chain` | isoft/e2e/src/Crc.c:887-935 | the CRC of a + b is the CRC of b continued from the CRC of a |
| `CrcTheory.StepsXor` | isoft/e2e/src/Crc.c:907-920 | shifting is linear over exclusive or |
| `CrcTheory.FeedInjective` | isoft/e2e/src/Crc.c:902-921 | a byte step is injective in the register |
| `CrcTheory.ShortRunInjective` | isoft/e2e/src/Crc.c:902-921 | from one register, different byte strings no longer than the CRC lead to different registers |
| `CrcTheory.BurstChangesCrc` | isoft/e2e/src/Crc.c:902-936 | a change confined to as many consecutive bytes as the CRC has always changes the CRC |
| `CrcTheory.TwoDifferences` | isoft/e2e/src/Crc.c:902-921 | messages that differ in two bytes leave the same register iff the first difference, shifted to the place of the second, is the second |
| `CrcTable.LookupIsFeed` | isoft/e2e/src/Crc.c:806-831 | one table step on the mirrored register is eight bit steps, mirrored |
| `CrcTable.EntryLinear` | isoft/e2e/src/Crc.c:543-549 | table entries are linear in their index |
| `CrcTable.SixTables` | isoft/e2e/src/Crc.c:92-135 | the six CRCs start from ones, as the table loop asks, and have a table each |
| `CrcTable.CalculateTable` | isoft/crc/src/crc.cpp:223-323 | the table loops of crc.cpp and Crc.c return what the bit-serial loops return |
| `CrcValues.EntryDoubled` | isoft/e2e/src/Crc.c:907-920 | doubling the index shifts the entry once, up or, for reflected CRCs, down, so that one entry determines all powers of two |
| `CrcValues.CheckValue` | isoft/e2e/src/Crc.c:887-936 | the CRC of any byte behind as many bytes of ones as the CRC has is its table entry, but for the final exclusive or |
| `CrcValues.Values8` | isoft/e2e/src/Crc.c:264-280 | the entries of the powers of two in the table of CRC8, in hexadecimal digits, and the values returned for them |
| `CrcValues.Values8H2F` | isoft/e2e/src/Crc.c:288-305 | the same for CRC8H2F |
| `CrcValues.Values16` | isoft/e2e/src/Crc.c:236-256 | the same for CRC16, which has no final exclusive or |
| `CrcValues.Values32` | isoft/e2e/src/Crc.c:155-187 | the same for CRC32 |
| `CrcValues.Values32P4` | isoft/e2e/src/Crc.c:195-228 | the same for CRC32P4 |
| `CrcValues.Values64` | isoft/e2e/src/Crc.c:313-367 | the same for CRC64 |
| `Reflection.Reflect32IsReverse` | isoft/crc/src/crc.cpp:325-334 | swapping groups of 1, 2, 4, 8 and 16 bits under masks mirrors a 32-bit word |
| `Reflection.Reflect64IsReverse` | isoft/crc/src/crc.cpp:336-342 | reflecting and exchanging the halves mirrors a 64-bit word |
| `Sealing.CloseIntact` | isoft/e2e/src/E2E_P04.c:136-146 | a message with its CRC filled in passes the comparison of CRCs |
| `Sealing.CalculateAround` | isoft/e2e/src/E2E_P07.c:156-164 | both branches on the offset compute one CRC over the data with the field cut out |
| `Sealing.ByteChangeDetected` | isoft/e2e/src/E2E_P05.c:262-290 | changing any one byte, CRC field included, breaks the equality of CRCs |
| `Sealing.CoveredBurstDetected` | isoft/e2e/src/E2E_P05.c:262-290 | so does any burst of the CRC's size in the covered data |
| `Sealing.OtherSuffixDetected` | isoft/e2e/src/E2E_P05.c:140-150 | a CRC computed with other untransmitted bytes differs |
| `Sealing.OtherSealExact` | isoft/e2e/src/E2E_P22.c:266-288 | another message with the same CRC field passes another seal iff what they cover leaves the same register |
| `Sealing.OtherPrefixExact` | isoft/e2e/src/E2E_P01.c:581-619 | other bytes before the data are accepted iff they have the same CRC |
| `Sealing.ComputeSeal` | isoft/e2e/src/E2E_P06.c:143-154 | the calls around the field and one by one for the bytes not transmitted give the CRC of all |
| `Profile.StoreFields` | isoft/e2e/src/E2E_P04.c:124-134 | writes length, counter and data ID, big endian, next to each other |
| `Profile.Examine` | isoft/e2e/src/E2E_P04.c:263-310 | a message is good iff CRC, data ID and length agree, with the counter it carries |
| `Profile.ProtectedFields` | isoft/e2e/src/E2E_P04.c:124-134 | the header of a protected message holds length, counter and data ID in this order, whatever was there before |
| `Profile.FormatOf` | isoft/e2e/src/E2E_P07.c:134-172 | fields, CRC and untouched bytes of a protected message, for every layout |
| `Profile.JudgeMeans` | isoft/e2e/src/E2E_P07.c:282-336 | what makes a message good, in terms of its bytes: CRC, length and data ID at their offsets, for every layout |
| `Profile.RoundTrip` | isoft/e2e/src/E2E_P04.c:107-161 | a protected message is good and yields the counter it was protected with |
| `Profile.ProtectedElsewhere` | isoft/e2e/src/E2E_P04.c:107-161 | protecting changes nothing outside header and CRC |
| `Profile.ByteChangeRejected` | isoft/e2e/src/E2E_P04.c:263-307 | a protected message with one byte changed is bad |
| `Profile.BurstRejected` | isoft/e2e/src/E2E_P07.c:282-336 | so is one with a burst in the data covered by the CRC |
| `Profile.WrongLengthRejected` | isoft/e2e/src/E2E_P04.c:289-296 | a message whose length field holds another length is bad, although its CRC and data ID are right |
| `Profile.DamageReported` | isoft/e2e/src/E2E_P04.c:263-313 | its check reports ERROR and keeps the counter |
| `Profile.OtherIdRejected` | isoft/e2e/src/E2E_P04.c:280-307 | a receiver with another transmitted data ID finds the message bad |
| `Profile.OtherSuffixRejected` | isoft/e2e/src/E2E_P06.c:276-337 | and so does one with another ID that only enters the CRC |
| `Profile.ChannelStatus` | isoft/e2e/src/E2E_P04.c:213-317 | over a channel that drops, repeats and damages but keeps order, delivered messages get the status of their distance, for every scheme with a modular rule |
| `Profile.Unheard` | isoft/e2e/src/E2E_P04.c:228-313 | exactly which inputs are input errors, and that they change nothing; without data the report is NONEWDATA, for a bad message ERROR, and the counter is kept |
| `Profile.DeletionUnnoticed` | isoft/e2e/src/E2E_P04.c:258-313 | deleting all cycles that ended in NONEWDATA, ERROR or an input error, by their status and return value, changes no other status |
| `Receiver.OnlyGoodMessagesCount` | isoft/e2e/src/E2E_P22.c:285-330 | the same on verdicts, for any sequence check: only good messages count |
| `Sequence.CheckersReport` | isoft/e2e/src/E2E_P04.c:407-440 | no sequence check reports ERROR or NONEWDATA |
| `Receiver.CounterIsLastGood` | isoft/e2e/src/E2E_P04.c:439 | the counter is always that of the last message whose checks passed |
| `Receiver.DeliveredGetsDeserved` | isoft/e2e/src/E2E_P04.c:407-440 | a message n after the last delivered one is REPEATED, OK, OKSOMELOST or WRONGSEQUENCE by n and the limit, across counter overflow |
| `Receiver.DeliveredAtDistance` | isoft/e2e/src/E2E_P04.c:407-440 | in any run, ordered or not, the status is that of the distance modulo the period |
| `Sequence.CheckerModular` | isoft/e2e/src/E2E_P04.c:407-440 | the signed comparison is the distance modulo the period iff the limit is below half the period; otherwise everything is a wrong sequence |
| `Sequence.CheckerLongModular` | isoft/e2e/src/E2E_P07.c:434-472 | the same for the 32-bit form, iff the limit is at most 0x7FFFFFFF |
| `Sequence.CheckerNibbleModular` | isoft/e2e/src/E2E_P22.c:290-320 | the unsigned form on four bits is modular for every limit |
| `P04.ComputeCrc` | isoft/e2e/src/E2E_P04.c:136-141 | the chained calls give the CRC of the data without its CRC field |
| `P04.FitsMeans` | isoft/e2e/src/E2E_P04.c:120-123 | what callers owe for profile 4, and its counter's period |
| `P04.Format` | isoft/e2e/src/E2E_P04.c:124-147 | the bytes of a protected message at their offsets, and what the CRC covers |
| `P04.Accepted` | isoft/e2e/src/E2E_P04.c:263-310 | exactly which messages are good, by their bytes at the offsets of profile 4 |
| `P04.WrongLength` | isoft/e2e/src/E2E_P04.c:289-296 | a wrong length field is rejected although the CRC is right |
| `P04.ProtectState.ProtectInit` | isoft/e2e/src/E2E_P04.c:177-192 | counting starts at 0 |
| `P04.ProtectState.Protect` | isoft/e2e/src/E2E_P04.c:107-161 | the data becomes its protected form and the counter advances, or an error leaves both unchanged |
| `P04.CheckState.CheckInit` | isoft/e2e/src/E2E_P04.c:333-349 | the counter before the first message is 0xFFFF |
| `P04.CheckState.Check` | isoft/e2e/src/E2E_P04.c:213-317 | new state and return value for every input, absent data and wrong lengths included |
| `P04.Channel` | isoft/e2e/src/E2E_P04.c:107-161 | the channel theorem for profile 4, limits up to 0x7FFF |
| `P04.Masquerade` | isoft/e2e/src/E2E_P04.c:280-307 | every other data ID is rejected |
| `Endpoint.ProtectState.Protect` | isoft/e2e/src/E2E_P07.c:110-179 | profiles 5 to 8: the data becomes its protected form and the counter advances, or an error leaves both unchanged |
| `Endpoint.SendAll` | isoft/e2e/src/E2E_P07.c:134-179 | protecting payloads in turn from initialisation yields message number i of the channel results, with counter i modulo the period |
| `Endpoint.CheckState.CheckInit` | isoft/e2e/src/E2E_P07.c:361-376 | the counter before the first message is the greatest |
| `Endpoint.CheckState.Check` | isoft/e2e/src/E2E_P07.c:232-344 | new state and return value for every input, absent data and wrong lengths included |
| `P05.FitsMeans` | isoft/e2e/src/E2E_P05.c:118 | what callers owe for this profile, and where its CRC is |
| `P05.Format` | isoft/e2e/src/E2E_P05.c:136-154 | counter and little endian CRC at their offsets; the CRC covers data and data ID, low byte first |
| `P05.Accepted` | isoft/e2e/src/E2E_P05.c:262-312 | exactly which messages are good, by their bytes at the offsets of profile 5 |
| `P05.Channel` | isoft/e2e/src/E2E_P05.c:289-312 | the channel theorem modulo 256, limits up to 0x7F |
| `P05.Masquerade` | isoft/e2e/src/E2E_P05.c:140-150 | every other 16-bit data ID is rejected, although it is not transmitted |
| `P06.FitsMeans` | isoft/e2e/src/E2E_P06.c:118 | what callers owe for this profile, and where its CRC is |
| `P06.Format` | isoft/e2e/src/E2E_P06.c:136-157 | length, counter and big endian CRC at their offsets; the CRC covers data and data ID, high byte first |
| `P06.Accepted` | isoft/e2e/src/E2E_P06.c:276-337 | exactly which messages are good, by their bytes at the offsets of profile 6 |
| `P06.WrongLength` | isoft/e2e/src/E2E_P06.c:296 | a wrong length field is rejected although the CRC is right |
| `P06.Channel` | isoft/e2e/src/E2E_P06.c:299-322 | the channel theorem modulo 256, limits up to 0x7F |
| `P06.Masquerade` | isoft/e2e/src/E2E_P06.c:143-154 | every other 16-bit data ID is rejected |
| `P07.FitsMeans` | isoft/e2e/src/E2E_P07.c:123 | what callers owe for this profile, and where its CRC is |
| `P07.Format` | isoft/e2e/src/E2E_P07.c:136-173 | CRC, length, counter and data ID at their offsets |
| `P07.Accepted` | isoft/e2e/src/E2E_P07.c:282-336 | exactly which messages are good, by their bytes at the offsets of profile 7 |
| `P07.WrongLength` | isoft/e2e/src/E2E_P07.c:318 | a wrong length field is rejected although the CRC is right |
| `P07.Channel` | isoft/e2e/src/E2E_P07.c:434-472 | the channel theorem modulo 2^32, limits up to 0x7FFFFFFF |
| `P07.Masquerade` | isoft/e2e/src/E2E_P07.c:282-336 | every other data ID is rejected |
| `P08.FitsMeans` | isoft/e2e/src/E2E_P08.c:122 | what callers owe for this profile, and where its CRC is |
| `P08.Format` | isoft/e2e/src/E2E_P08.c:136-172 | CRC, length, counter and data ID at their offsets |
| `P08.Accepted` | isoft/e2e/src/E2E_P08.c:281-333 | exactly which messages are good, by their bytes at the offsets of profile 8 |
| `P08.WrongLength` | isoft/e2e/src/E2E_P08.c:315 | a wrong length field is rejected although the CRC is right |
| `P08.Channel` | isoft/e2e/src/E2E_P08.c:431-469 | the channel theorem modulo 2^32, limits up to 0x7FFFFFFF |
| `P08.Masquerade` | isoft/e2e/src/E2E_P08.c:281-333 | every other data ID is rejected |
| `P22.ProtectState.Protect` | isoft/e2e/src/E2E_P22.c:104-159 | the counter advances modulo 16 first, and the data becomes its protected form |
| `P22.CheckState.Check` | isoft/e2e/src/E2E_P22.c:211-334 | new state and return value for every input |
| `P22.RoundTrip` | isoft/e2e/src/E2E_P22.c:135-156 | the check reads the counter back; only the CRC and the counter's half byte change |
| `P22.Format` | isoft/e2e/src/E2E_P22.c:135-156 | counter and CRC at their places; the CRC covers the rest and the data ID for the counter |
| `P22.Accepted` | isoft/e2e/src/E2E_P22.c:266-288 | exactly which messages are good, by their bytes |
| `P22.Unheard` | isoft/e2e/src/E2E_P22.c:225-264 | exactly which inputs are input errors; NONEWDATA, ERROR and the kept counter otherwise |
| `P22.SendAll` | isoft/e2e/src/E2E_P22.c:135-156 | protecting payloads in turn from initialisation yields the messages of the channel result, counted from one |
| `P22.ByteChangeExact` | isoft/e2e/src/E2E_P22.c:266-330 | one byte changed makes a message bad, unless it is the counter's and its difference, shifted to the end, is that of the data IDs; then the new counter is accepted |
| `P22.UnnoticedChange` | isoft/e2e/src/E2E_P22.c:281 | with data IDs 0x00 and 0x2F, counter 0 of a two-byte message changes to 1 unnoticed |
| `P22.Masquerade` | isoft/e2e/src/E2E_P22.c:281 | another data ID for the counter is rejected |
| `P22.DeletionUnnoticed` | isoft/e2e/src/E2E_P22.c:262-330 | deleting all cycles that ended in NONEWDATA, ERROR or an input error, by their status and return value, changes no other status |
| `P22.Channel` | isoft/e2e/src/E2E_P22.c:290-320 | the channel theorem modulo 16 for any limit; the first message counts as following a lost one |
| `Origins.PackRoundTrip` | isoft/e2e/src/E2E_P04m.c:144-152 | source ID, type and result are recovered from the packed bytes |
| `Origins.PackBytes` | isoft/e2e/src/E2E_P04m.c:144-152 | the four packed bytes |
| `Origins.SourceCheckExact` | isoft/e2e/src/E2E_P04m.c:299-344 | on a protected message the source's check reports an error iff source ID, type or result differ |
| `Origins.SinkCheckExact` | isoft/e2e/src/E2E_P04m.c:440-484 | the sink reads exactly the source ID sent, and reports an error iff type or result differ |
| `Origins.OriginByteChangeRejected` | isoft/e2e/src/E2E_P04m.c:327-344 | both checks reject a message with one byte changed |
| `Origins.Unheard` | isoft/e2e/src/E2E_P04m.c:239-298 | exactly which inputs and expectations are input errors at source and sink; NONEWDATA, ERROR and the kept counter otherwise |
| `Origins.ProtectState.Protect` | isoft/e2e/src/E2E_P04m.c:109-178 | protected form with the origin packed in, or unchanged on error |
| `Origins.SendAll` | isoft/e2e/src/E2E_P04m.c:109-178 | protecting payloads in turn from initialisation yields messages that carry counter i modulo the period and their origins |
| `Origins.CheckState.SourceCheck` | isoft/e2e/src/E2E_P04m.c:239-355 | new state and return value for every input and expectation |
| `Origins.CheckState.SinkCheck` | isoft/e2e/src/E2E_P04m.c:381-495 | the same, and the source ID is output iff there was new data |
| `P04m.FitsMeans` | isoft/e2e/src/E2E_P04m.c:125 | what callers owe for this profile, and where its CRC is |
| `P04m.Format` | isoft/e2e/src/E2E_P04m.c:131-163 | length, counter, data ID, CRC and origin of a protected message of profile 4m at their offsets, and what is kept |
| `P04m.Channel` | isoft/e2e/src/E2E_P04m.c:299-355 | the channel theorem at source and sink, limits up to 0x7FFF |
| `P07m.FitsMeans` | isoft/e2e/src/E2E_P07m.c:124 | what callers owe for this profile, and where its CRC is |
| `P07m.Format` | isoft/e2e/src/E2E_P07m.c:146-187 | CRC, length, counter, data ID and origin of a protected message of profile 7m at their offsets, and what is kept |
| `P07m.ClassifyShortExact` | isoft/e2e/src/E2E_P07m.c:612-645 | for every limit, counter and distance, exactly when the 16-bit casts give the deserved status |
| `P07m.Channel` | isoft/e2e/src/E2E_P07m.c:612-645 | in every run a delivered message gets what it deserves under exactly that condition, at source and sink |
| `P07m.ConsecutiveWrong` | isoft/e2e/src/E2E_P07m.c:620-622 | consecutive counters 0x7FFF and 0x8000 are a wrong sequence, and all consecutive counters are with limit 0x10000 |
| `P01.CalculateCRC8` | isoft/e2e/src/E2E_P01.c:566-634 | in four modes, one CRC over the bytes of the ID and the data around the CRC, without its final inversion |
| `P01.ProtectState.Protect` | isoft/e2e/src/E2E_P01.c:152-198 | protected form and the counter advances modulo 15, or unchanged on error |
| `P01.Check` | isoft/e2e/src/E2E_P01.c:249-334 | new state and return value for every state and input, the input error for counter 15 included |
| `P01.RoundTrip` | isoft/e2e/src/E2E_P01.c:249-334 | what the check finds in a protected message, wherever the eight-bit index puts the ID nibble; where the index fits in eight bits, always the counter |
| `P01.OnlyFields` | isoft/e2e/src/E2E_P01.c:152-198 | protecting changes only the counter, then the ID nibble (at an index of eight bits) in nibble mode, and the CRC byte |
| `P01.Format` | isoft/e2e/src/E2E_P01.c:566-634 | the CRC byte of a protected message: which bytes of the ID it covers in each mode and at each offset, from a register of zeros, uninverted |
| `P01.FormatNibbles` | isoft/e2e/src/E2E_P01.c:164-191 | counter and ID nibble are in the halves of bytes their bit offsets denote |
| `P01.Accepted` | isoft/e2e/src/E2E_P01.c:263-330 | exactly what a check finds in a message, by its bytes and halves of bytes |
| `P01.SendAll` | isoft/e2e/src/E2E_P01.c:152-198 | protecting payloads in turn from initialisation yields messages with counter i modulo 15 |
| `P01.Channel` | isoft/e2e/src/E2E_P01.c:249-334 | with SyncCounterInit > 0 or MaxDeltaCounterInit >= 13, each message of an ordered byte-level run from initialisation, earlier gaps out of reach included, is reported as it deserves: INITIAL, REPEATED, WRONGSEQUENCE, or SYNC, OK or OKSOMELOST with exactly the lost messages counted |
| `P01.SequenceExact` | isoft/e2e/src/E2E_P01.c:640-726 | status, SyncCounter, LostData and tolerance after any counter, by its distance and the configuration; WRONGSEQUENCE also with SyncCounterInit = 0 |
| `P01.ByteChangeExact` | isoft/e2e/src/E2E_P01.c:275-330 | one byte changed is a wrong CRC or an impossible counter, unless in alternating mode the counter's byte makes up for the other byte of the ID |
| `P01.DamageReported` | isoft/e2e/src/E2E_P01.c:287-330 | one byte changed is reported as WRONGCRC, or leaves the status where the counter becomes impossible, and the receiver goes on from its last counter |
| `P01.UnnoticedChange` | isoft/e2e/src/E2E_P01.c:590-599 | with ID 0x0100 in alternating mode, counter 0 of a two-byte message changes to 13 unnoticed |
| `P01.MasqueradeExact` | isoft/e2e/src/E2E_P01.c:576-624 | in every mode and at every offset, another ID is accepted iff its bytes have the same CRC or are dropped, and in nibble mode the nibble read is the expected one |
| `P01.Masquerade` | isoft/e2e/src/E2E_P01.c:581-607 | so IDs that differ in one byte entering the CRC are rejected unless dropped |
| `P01.UnnoticedId` | isoft/e2e/src/E2E_P01.c:583-586 | in BOTH mode the IDs 0x0000 and 0x1D01 are not told apart |
| `P01.IdIgnored` | isoft/e2e/src/E2E_P01.c:609-620 | a CRC offset of 1 to 7 drops the ID: any other ID is accepted, but for nibble mode |
| `P02.ProtectState.Protect` | isoft/e2e/src/E2E_P02.c:120-154 | the counter advances modulo 16 first, and the data becomes its protected form |
| `P02.Check` | isoft/e2e/src/E2E_P02.c:284-345 | new state and return value for every state and input |
| `P02.RoundTrip` | isoft/e2e/src/E2E_P02.c:284-345 | the check recovers the counter; only the CRC and the counter's half byte change |
| `P02.Format` | isoft/e2e/src/E2E_P02.c:120-154 | counter and CRC at their places; the CRC covers the rest and the data ID for the counter |
| `P02.Accepted` | isoft/e2e/src/E2E_P02.c:302-331 | exactly what a check finds in a message, by its bytes |
| `P02.SendAll` | isoft/e2e/src/E2E_P02.c:120-154 | protecting payloads in turn from initialisation yields messages counted from one, modulo 16 |
| `P02.Channel` | isoft/e2e/src/E2E_P02.c:284-345 | the same byte-level run theorem for profile 2, with SyncCounterInit > 0 or MaxDeltaCounterInit >= 14 |
| `P02.SequenceExact` | isoft/e2e/src/E2E_P02.c:190-265 | status, SyncCounter, LostData and tolerance after any counter, by its distance and the configuration |
| `P02.ByteChangeExact` | isoft/e2e/src/E2E_P02.c:302-330 | one byte changed is a wrong CRC, unless the counter's byte makes up for the data ID it selects |
| `P02.DamageReported` | isoft/e2e/src/E2E_P02.c:302-331 | one byte changed is reported as WRONGCRC, and the receiver goes on from its last counter |
| `P02.UnnoticedChange` | isoft/e2e/src/E2E_P02.c:304-307 | with data IDs 0x00 and 0x2F, counter 0 of a two-byte message changes to 1 unnoticed |
| `P02.Masquerade` | isoft/e2e/src/E2E_P02.c:304-307 | another data ID for the counter is rejected |
| `P02.ReportedExactly` | isoft/e2e/src/E2E_P02.c:190-265 | a wrong sequence is reported iff the jump is out of tolerance and SyncCounterInit > 0 |
| `P02.UnreportedJump` | isoft/e2e/src/E2E_P02.c:254-264 | a run from initialisation, with SyncCounterInit = 0, in which a jump out of tolerance leaves the status OK |
| `Tolerance.CheckState.CheckInit` | isoft/e2e/src/E2E_P01.c:351-373 | the initial state of profiles 1 and 2 |
| `Tolerance.CheckState.CheckSequence` | isoft/e2e/src/E2E_P01.c:640-726 | new state for every counter, in both profiles |
| `Tolerance.CheckState.Take` | isoft/e2e/src/E2E_P02.c:297-341 | new state for everything a check can find |
| `Tolerance.UnheardReported` | isoft/e2e/src/E2E_P02.c:297-341 | NONEWDATA without new data, WRONGCRC for a wrong CRC, the old status for an impossible counter, and what is kept |
| `Tolerance.GuardedForever` | isoft/e2e/src/E2E_P01.c:541-546 | every reachable state passes the range check iff MaxDeltaCounterInit does |
| `Tolerance.GapTolerance` | isoft/e2e/src/E2E_P01.c:640-726 | k idle checks after a reset, a jump d avoids a wrong sequence iff d <= min(MaxDeltaCounterInit + k + 1, top), and then LostData = d - 1 |
| `Tolerance.LossCounted` | isoft/e2e/src/E2E_P01.c:647-654 | in terms of message numbers, exactly the messages in between are counted as lost |
| `Tolerance.ChannelReport` | isoft/e2e/src/E2E_P02.c:190-265 | where SyncCounterInit > 0 or no jump can be out of reach, the status and LostData of every message of every ordered run from initialisation are those its distance, the quiet checks and the owed synchronisation deserve |
| `Tolerance.ChannelExact` | isoft/e2e/src/E2E_P01.c:640-726 | this condition is exact: all ordered runs are reported as deserved iff SyncCounterInit > 0 or MaxDeltaCounterInit + 1 is at least the greatest counter |
| `Tolerance.ThirdUndeserved` | isoft/e2e/src/E2E_P01.c:715-725 | otherwise, with limit m in profile 1, messages 0, m + 2, m + 3 arrive and the last is reported WRONGSEQUENCE or REPEATED although nothing was lost before it |
| `Tolerance.SecondUndeserved` | isoft/e2e/src/E2E_P02.c:254-264 | and in profile 2 the jump from 0 to m + 2 is not reported |
| `Tolerance.Resynchronisation` | isoft/e2e/src/E2E_P02.c:204-264 | after a wrong sequence with SyncCounterInit = s > 0, exactly s messages in tolerance report SYNC before OK or OKSOMELOST |
| `StateMachine.SMCheckState.AddStatus` | isoft/e2e/src/E2E.c:292-342 | the slot is overwritten, both counts are those of the window, the index wraps |
| `StateMachine.SMCheckState.ClearStatus` | isoft/e2e/src/E2E.c:344-370 | the current window is blank, and only that |
| `StateMachine.SMCheckState.ClearRemainingStatus` | isoft/e2e/src/E2E.c:372-412 | when the window grows, all but its last old slot are cleared |
| `StateMachine.SMCheckState.CheckInit` | isoft/e2e/src/E2E.c:246-284 | only the window of the previous state is cleared |
| `StateMachine.SMCheckState.CheckBeforeR2011` | isoft/e2e/src/E2E.c:414-499 | the earlier variant is Step |
| `StateMachine.SMCheckState.CheckR2011` | isoft/e2e/src/E2E.c:501-602 | the later variant is Step |
| `StateMachine.SMCheckState.Check` | isoft/e2e/src/E2E.c:200-230 | new state and return value for every status, unknown ones included |
| `SlidingWindow.AddSlides` | isoft/e2e/src/E2E.c:292-342 | read from the oldest slot, adding drops the oldest status and appends the new one, and counts in that window |
| `SlidingWindow.RunChronicles` | isoft/e2e/src/E2E.c:414-602 | with equal sizes every run, in both variants, refines a machine that keeps the history since the last clearing and no buffer |
| `SlidingWindow.StateOfHistory` | isoft/e2e/src/E2E.c:414-499 | before R20-11 without clearing, counts are those of the last w statuses heard and the state is a function of the statuses alone |
| `IndexSafety.StepInside` | isoft/e2e/src/E2E.c:292-412 | a step writes nothing outside the window it finds |
| `IndexSafety.IndexSafe` | isoft/e2e/src/E2E.c:414-602 | the index stays inside the window in every run, for all limits, iff Init <= Valid (where INIT is reachable), Invalid <= Valid, and ClearToInvalid or Invalid = Valid |
| `IndexSafety.Counterexample` | isoft/e2e/src/E2E.c:466-473 | for all other sizes, limits and a run that take the index outside |
| `Reactions.Detection` | isoft/e2e/src/E2E.c:564-579 | consecutive errors lead from VALID to INVALID within min(MaxError + 1, window) checks, iff the limits allow leaving VALID at all |
| `Reactions.NeverDetects` | isoft/e2e/src/E2E.c:459-474 | otherwise no run leaves VALID |
| `Reactions.Recovery` | isoft/e2e/src/E2E.c:580-587 | a window of OKs leads from INVALID to VALID iff MinOk fits in the window |
| `Reactions.NeverRecovers` | isoft/e2e/src/E2E.c:475-482 | otherwise no run leaves INVALID |
| `Reactions.InitStartsBlank` | isoft/e2e/src/E2E.c:511-536 | from R20-11 INIT starts with an empty window if WindowSizeInit <= WindowSizeInvalid |
| `Reactions.EarlyExit` | isoft/e2e/src/E2E.c:532-557 | in the first lap INIT is left for INVALID exactly when there are too many errors or no way of filling the remaining slots reaches MinOk |
| `Reactions.EarlyExitFromStart` | isoft/e2e/src/E2E.c:513-557 | the same in every run from CheckInit with WindowSizeInit <= WindowSizeInvalid |
| `Reactions.LapEnd` | isoft/e2e/src/E2E.c:546-547 | on the wrap step the signed remainder makes the test miss that, exactly as stated |
| `Reactions.MissedAtLapEnd` | isoft/e2e/src/E2E.c:546-547 | a run from CheckInit in which VALID was missed and INIT is kept |
| `Transitions.Handover` | isoft/e2e/src/E2E.c:372-412 | the window after any change of state, for all sizes: blank as far as the old one reached if emptied; its last slot and what lies beyond if it grows, but not out of VALID; otherwise all |
| `Transitions.CountsAfterChange` | isoft/e2e/src/E2E.c:292-342 | so the counts after it are those of this heritage followed by what was received since |
| `Transitions.StaleStart` | isoft/e2e/src/E2E.c:246-284 | before R20-11 the first check in INIT also counts what CheckInit left beyond the window it emptied |
| `Transitions.NoDataBefore` | isoft/e2e/src/E2E.c:427-432 | before R20-11 NODATA is left for INIT on the first status other than ERROR and NONEWDATA, and for nothing else |
| `Transitions.NoDataExact` | isoft/e2e/src/E2E.c:512-536 | from R20-11 it is left for INVALID with check number min(WindowSizeInit, WindowSizeInvalid), whatever that reports |
| `EndToEnd.OksReachValid` | isoft/e2e/src/E2E.c:414-602 | OKs reach VALID after exactly 1 + max(1, MinOkStateInit) and stay there, in both variants |
| `Growth.OksKeepValid` | isoft/e2e/src/E2E.c:405-411 | with Init < Valid and a cleared buffer OKs enter VALID as above, but keep it iff MinOkStateValid is at most 1, or 2 where MinOkStateInit fills the window of INIT; otherwise the next OK leaves it |
| `Growth.OksFromBlank` | isoft/e2e/src/E2E.c:405-411 | the same from INIT or INVALID with an empty window, after exactly max(1, MinOk) OKs |
| `Growth.RecoveryKeepsValid` | isoft/e2e/src/E2E.c:475-482 | after VALID was left with ClearToInvalid, when OKs recover it and exactly when they keep it, with Invalid < Valid |
| `Growth.LeftOnOk` | isoft/e2e/src/E2E.c:405-411 | with windows of 3 and 10 and MinOk 3 in both, the fourth OK enters VALID and the fifth leaves it with two OKs counted |
| `EndToEnd.ChannelReachesValid` | isoft/e2e/src/E2E_P04.c:362-398 | messages over a channel with tolerated losses do so through check and status mapping, for every profile with a modular rule |
| `EndToEnd.LosslessReachesValid` | isoft/e2e/src/E2E_P04.c:362-398 | every lossless run is such a run |
| `EndToEnd.ToldOfMessage` | isoft/e2e/src/E2E_P04.c:362-398 | in any run the state machine is told of a delivered message that it is repeated, OK or out of sequence by its distance modulo the period |
| `EndToEnd.ToldOtherwise` | isoft/e2e/src/E2E_P04.c:362-398 | and otherwise that there is no new data, or an error, input errors included |
| `EndToEnd.NeverRaised` | isoft/e2e/src/E2E.c:292-342 | a repeated message, or one out of sequence, never raises the number of OKs |
| `EndToEnd.DamageDetected` | isoft/e2e/src/E2E_P04.c:263-313 | from VALID, protected messages each damaged in one byte lead to INVALID within min(MaxError + 1, window) of them, iff the limits allow leaving VALID, for every scheme |
| `EndToEnd.Deliver` | isoft/e2e/src/E2E_P04.c:107-317 | protecting and checking payload number i of a lossless run reports OK |
| `EndToEnd.Session` | isoft/e2e/src/E2E_P04.c:362-398 | the four functions of profile 4 called in turn on every payload reach VALID as stated |

## Left out

- The literal tables of Crc.c and crc.cpp, but for the entries of the powers of two in Crc.c: table loops are verified for the table whose entries are eight bit steps of their index.
- CrcTable.CalculateTable: takes the table as a parameter, because the literal tables are not part of this model; `CrcValues` and `CrcTable.EntryLinear` determine its entries.
- The HARDWARE mode of the CRC routines, which is empty.
- Null checks of configuration and state arguments, version information and memory mapping.
- The status mappings of profiles 1 and 2 and the copies of profile 4's mapping, which would only add easy members.
- Reordering channels: InOrder excludes them, since a counter modulo its period cannot tell an old message from a new one.
- The other parts of the repository: kernel module, routing and raw communication, identity and access management, loader, file system helper.
