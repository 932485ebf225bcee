# HPLIP model

A Dafny model of the parts of HPLIP that hold real state machines, codecs and buffer surgery, with proofs of what they
keep, give back and lose. `dafny verify dfyconfig.toml` checks all of it.

| files | what they model |
|---|---|
| `Octets`, `Ratios`, `Exif`, `IfdChain`, `Thumbnail`, `Rebuild`, `ExifHeader`, `ThumbnailFailures`, `ExifLayout`, `ExifExamples`, `JpegWalk` | reading EXIF directories in either byte order (TIFF Revision 6.0, section 2), rebuilding the thumbnail directory as a TIFF file of its own, finding the header in a JPEG file (ITU-T T.81, Annex B) |
| `Base64`, `LdifText`, `LdifRecord`, `LdifRoundTrip`, `LdifLaws`, `Ldif` | the LDIF writer and parser (RFC 2849) |
| `DeviceId`, `DeviceState`, `DeviceModes`, `DeviceSerial`, `Device` | device ID strings and the device object: opening, closing, channels, serial number, with every answer of the driver |
| `Agents`, `AgentLaws` | matching reported supplies against the model's and numbering the results |
| `RingBuffer`, `StatusEvents`, `StatusRuns`, `ServiceRuns`, `StatusLaws`, `StatusFailures`, `StatusService` | the event service: history, tray, waiting faxes, exceptions |
| `ReplyPipe`, `ReplyQueue` | replies of the I/O child through a pipe and a signal, as two processes |
| `Dime`, `Unescape`, `EscapeLaws`, `Magic`, `MagicLaws`, `QueueName` | DIME messages, magic-number rows, names for new queues |
| `Common`, `Blanks` | what several of these share |

Code that changes things in place is modelled by classes and loops (`ExifHeader`, `LdifWriter`, `LdifParser`, `Device`,
`DeviceQuery`, `RingBuffer`, `StatusService`, `Pipe`, `Message`), each method proved against a function of its old state;
the lemmas then speak about these functions, and `ExifLayout` and the `Laws` modules say in
plain numbers, characters and octets what they come to. File contents and LDIF texts are strings of octets, read as the code reads
them where a character is an octet. The answers of `hpmudext` are an arbitrary oracle, numbered by request.

## Where the code does not do what it is meant to do

Each of these but the misspelt name is a proved statement, and where the code meets its purpose under some condition,
that condition is proved too.

- The slot width for strip offsets (`base/exif.py:846-847`) is the whole field when the table is inline, so a table of
  several SHORT or BYTE offsets is rebuilt wrongly: `Rebuild.StripTableRightIff`, `Rebuild.WideSlotsMisread`,
  `ExifExamples.TwoShortStrips`.
- `list_IFDs` never returns on a chain that leads back to itself: `IfdChain.NeverEndsIff`, `ExifExamples.SelfLoop`.
- A leading JPEG segment with a length field below 8 makes `file.read` get a negative count, which reads to the end of
  the file, and the next test raises IndexError: `JpegWalk.HeaderAfterSegments`, `JpegWalk.ShortSegmentFails`.
- The LDIF parser drops the character behind the colon whether it is a blank or not, and all white space that follows;
  the writer encodes values that start with a blank but not those that start with a tab, vertical tab or form feed:
  `LdifRecord.LineRoundTripIff`, `LdifRecord.TabLost`, `LdifRecord.BlankAfterColonNeeded`.
- `base/ldif.py:126` names a variable that does not exist; it is read as `base64_attrs`.
- With an unknown serial number and a status type, opening for printing asks for the serial number over a channel that
  reopens the device in the other mode: print and other channels meet on one device, or a channel is recorded on a
  device that is not open (`DeviceModes.SeparatedExactly`, `DeviceModes.PrintBesideFax`,
  `DeviceModes.ChannelOnClosedDevice`). A print channel asked for in lower case does the same (`DeviceModes.NamesExactly`).
- `getDeviceID` swallows every failure of the opening it asks for (`base/device.py:1359-1363`), so a device whose first ID
  does not parse stays open behind a caller that never opened it: `DeviceSerial.IdLeavesOpenIff`, `DeviceSerial.LeftOpen`.
- The fallback for devices not found looks up a key that still holds the pattern `r%d` (`base/device.py:1926`), so the
  region is always 0: `Agents.AbsentRegionIff`, `Agents.WrongRegionShown`.
- Entries of an earlier, larger query stay in the results and are shown by later scans: `Agents.ScanShowsLastQuery`,
  `Agents.StaleSupplyShown`. When some agent carries a SKU and another has no such key, the query ends in a KeyError:
  `Agents.DeviceQuery.QueryAgents`, `AgentLaws.ShownIsReported`, `Agents.MissingSkuFails`.
- A user event without a URI reads a variable that was never set (`hpssd.py:461`), and a reply that decodes to the code of
  a reply is handled a second time without its length (`hpssd.py:498`): `StatusFailures.RaisesIff`,
  `StatusFailures.UserEventWithoutUri`, `StatusFailures.NestedReply`.
- When several replies are queued and the first is not a multiple of 4096 long, all of them are lost, and a later read can
  then take the tail of one reply for another: `ReplyPipe.Pipe.ReadReplyGreedily`, `ReplyQueue.LossIff`,
  `ReplyQueue.Misdecoded`. A reply longer than the pipe blocks the child for ever, since it is announced only once
  written: `ReplyPipe.StuckIff`.
- `unescape` rescans what it decoded, so a text with a backslash does not survive escaping: `Unescape.EscapeRoundTripIff`.
- Magic rows whose unsigned value is compared with a signed number, whose value is a character string, or which are native
  longs on a machine with longs of eight octets can never match: `Magic.NumericRowCanMatchIff`,
  `Magic.StringRowCanMatchIff`, `Magic.DeadRow`. A string at the very end of the data is not recognised: `Magic.StringRowAccepts`.

## Model

| member | source | states |
|---|---|---|
| Octets.DigitsRoundTrip | base/exif.py:634-647 | a number below 256^k survives being written as k octets and read back, in either byte order |
| Octets.NumDigits | base/exif.py:726-734 | an octet string of any length is the digits of its own value, which is below 256^length: reading then writing changes nothing |
| ExifHeader.ExifHeader.ReadNumber | base/exif.py:710-723 | the seek-read-accumulate loop returns the positional value of the octets read, short reads at the end of the file included; the sign flag has no effect |
| ExifHeader.ExifHeader.NumberToString | base/exif.py:726-734 | the string-building loop gives exactly the lowest `length` octets in the header's byte order, larger numbers being truncated |
| IfdChain.EndsExactly | base/exif.py:746-752 | the walk along the directory chain ends at all if and only if it ends within one more step than the file has octets |
| IfdChain.NoRepeat | base/exif.py:746-752 | on a walk that ends no directory is visited twice |
| IfdChain.LoopNeverEnds | base/exif.py:746-752 | a chain that leads back to a directory never reaches the null pointer: the loop runs for ever |
| IfdChain.NeverEndsIff | base/exif.py:746-752 | the walk never ends if and only if two different steps of it meet the same directory before any null pointer |
| ExifExamples.SelfLoop | base/exif.py:746-752 | fourteen octets on which the walk never ends |
| ExifHeader.ExifHeader.ListIfds | base/exif.py:746-752 | lists the directories of the chain in order up to the null pointer, none of them null |
| ExifHeader.ExifHeader.ReadItem | base/exif.py:782-787 | one value, proved against the function whose octets ExifLayout.DecodedItem gives: a ratio for types 5 and 10, else a number of the width of its type |
| ExifHeader.ExifHeader.ReadValues | base/exif.py:771-789 | decodes the values of an entry: stripped text without its NULs, or one number or ratio per count at successive positions |
| Exif.ItemsFromAt | base/exif.py:781-789 | value j of a list is the one read j type lengths behind the first |
| ExifLayout.DecodedItem | base/exif.py:757-789 | value j of an entry, in octets: with p the place of its values plus j type lengths, types 5 and 10 have the numerator in file[p..p+4] and the denominator in file[p+4..p+8], every other non-text type its own width at p |
| ExifLayout.DecodedEntry | base/exif.py:757-813 | tag, type, count and size of an entry from its twelve octets; text exactly for type 2, else as many values as the count says |
| ExifLayout.DecodesIff | base/exif.py:762-764 | an entry decodes if and only if its two type octets are 1 to 10 |
| ExifLayout.DecodedText | base/exif.py:771-780 | a text value is its octets, blanks at both ends and then NULs removed |
| ExifLayout.TextStripped | base/exif.py:776-780 | whatever blanks stand around a text, they go and it stays, but for its NULs |
| ExifLayout.TerminatedText | base/exif.py:776-780 | a text with its terminator comes out without it |
| ExifLayout.SeventyTwo | base/exif.py:782-784 | the octets 0 0 0 72 0 0 0 1 are the ratio 72 to 1 |
| ExifLayout.UnnamedTag | base/exif.py:796-813 | a tag without a name is called by four hexadecimal digits of its number, behind the name of its directory |
| ExifLayout.ChainAt | base/exif.py:737-752 | the first directory is told in octets 4 to 8, the next one behind the entries of this one, twelve octets each |
| ExifHeader.ExifHeader.ReadEntry | base/exif.py:757-789 | decodes one entry, following the pointer exactly when count times type length exceeds 4; an unknown field type raises ValueError |
| ExifHeader.ExifHeader.PrintTag | base/exif.py:790-794 | making the printable form of a tag reduces its ratios in place, one by one |
| Exif.PrintedSame | base/exif.py:659-670 | recorded values are the decoded ones, each ratio being the same ratio in lowest terms |
| Ratios.ReducedIsLowest | base/exif.py:651-670 | the recursive gcd divides out completely: same ratio, no common divisor left, reducing again changes nothing |
| ExifHeader.ExifHeader.DumpIfd | base/exif.py:755-814 | records the decoded entries of a directory under their keys one after the other, ratios reduced by printing, stopping at the first that does not decode |
| Exif.RecordSucceedsIff | base/exif.py:755-814 | a dump succeeds if and only if every entry of the directory decodes |
| Exif.RecordKeepsLast | base/exif.py:811-814 | after a dump the last entry recorded under a key is the one found there |
| Exif.NameOfStrips | base/exif.py:796-810 | a tag gets one of the two strip-table names exactly when it is that tag; unnamed tags, named by their number, never do |
| Exif.SameOctetsSameValues | base/exif.py:771-789 | decoded values depend on nothing but their octets: equal octets at other positions of another file decode alike |
| Thumbnail.RelocatedField | base/exif.py:834-859 | after the first loop the pointer of every out-of-line entry leads to a copy of its value, and no later entry disturbs pointer or copy |
| Thumbnail.RelocatedStripField | base/exif.py:843-856 | the loop remembers the place and slot width of the last strip-offsets entry: 4 when out of line, the whole field when inline |
| Thumbnail.AppendKeeps | base/exif.py:864-871 | between two strips nothing in the buffer changes outside the slots written in between |
| Thumbnail.AppendedStrip | base/exif.py:864-871 | after the second loop every slot still leads to a copy of its strip, for any number of strips |
| Thumbnail.StripKept | base/exif.py:834-871 | after both loops slot i of the relocated strip table holds the offset at which strip i is found byte for byte |
| Thumbnail.OutOfLineKept | base/exif.py:834-871 | after both loops every out-of-line entry but the strip table points to an unchanged copy of its value |
| Thumbnail.DirectoryKept | base/exif.py:830-871 | directory octets that are neither an out-of-line pointer nor the strip table come through both loops unchanged |
| ExifHeader.ExifHeader.ReadField | base/exif.py:835-859 | reads what the first loop needs of an entry; a field type beyond the table raises IndexError |
| ExifHeader.ExifHeader.RelocateValues | base/exif.py:823-859 | the first loop as a whole: the relocated buffer, or IndexError exactly when some field type is not in the table |
| ExifHeader.ExifHeader.AppendPixelStrips | base/exif.py:861-871 | the second loop as a whole: every strip appended and pointed to, or the first failure met in the two value lists |
| ExifHeader.ExifHeader.ExtractTiffThumbnail | base/exif.py:822-873 | stores the rebuilt TIFF, or raises and stores nothing: a missing table, an unknown type, too few counts, no strip entry; its header is pinned by ExifHeader.ExtractedMark |
| ThumbnailFailures.ExtractRaises | base/exif.py:822-873 | when extraction raises and with what: IndexError on a field type above 10, then KeyError on a missing table; with offsets listed, UnboundLocalError without a strip entry, else the first strip whose offset or count is missing or no number decides; otherwise it succeeds |
| ExifHeader.ExtractedMark | base/exif.py:825-828 | whatever is stored begins with 77 77 0 42 when the high octet comes first and with 73 73 42 0 when the low one does |
| ExifHeader.ExtractedOpens | base/exif.py:825-977 | opened like any file, what is stored gives header offset 0 and the letter of its own order, the order of the file it was taken from |
| Rebuild.DirectoryReadsBack | base/exif.py:822-873 | re-read, the rebuilt file has the directory list [8], and every entry has its old tag, type and count |
| Rebuild.ValueOctetsKept | base/exif.py:846-859 | the value octets of every entry but the strip table are found unchanged, inline or behind the new pointer |
| Rebuild.StripTableRightIff | base/exif.py:843-872 | the rebuilt strip table reads back as the places of the strips if and only if slots are as wide as values (at most one strip, or LONG) and every place fits a value |
| Rebuild.WideSlotsMisread | base/exif.py:846-847 | with several strips in a table of octets or shorts the new table never reads back right, in either byte order |
| ExifExamples.TwoShortStrips | base/exif.py:846-847 | a small file with two strips listed as SHORTs that both loops accept and rebuild wrongly |
| ExifExamples.OneLongStrip | base/exif.py:822-873 | a small file with one LONG strip that meets all conditions and is rebuilt rightly |
| Rebuild.ThumbnailKeepsMeaning | base/exif.py:822-873 | meaning preserved: same entries, every value decoded alike, strip i byte-equal at the offset the new table gives for it |
| ExifHeader.DumpThenExtract | base/exif.py:755-873 | dumping a directory as the thumbnail and extracting it hands the loops the two strip tables as the file lists them |
| ExifHeader.ExtractedThumbnailMeans | base/exif.py:755-873 | end to end from the file: dump, extract and re-read, the byte order taken from the first octet of what was stored, give the same order, one directory with the same entries and values, and the original strips |
| JpegWalk.FindHeader | base/exif.py:951-977 | the loop over leading segments, with its short reads and index errors, computes the walk; TIFF files start at 0, others are not recognised |
| JpegWalk.WalkFrom | base/exif.py:963-971 | each time the loop test runs the position is 10 octets past the start of the current segment; the walk gets past any number of segments of length at least 8 and fails at the first shorter one |
| JpegWalk.HeaderAfterSegments | base/exif.py:953-971 | behind any JFIF, JFXX and OLYM segments the header found is at the octet after "Exif" and two octets if every length field is at least 8; otherwise the walk runs off the file and raises IndexError |
| JpegWalk.ShortSegmentFails | base/exif.py:963-967 | a JFIF segment with length field 2 before a whole EXIF segment: IndexError instead of the header |
| JpegWalk.OtherSegment | base/exif.py:963-977 | behind such segments anything but an EXIF segment means no header |
| JpegWalk.MarksAre | base/exif.py:963-968 | the identifiers skipped are JFIF, JFXX and OLYM, the one looked for is Exif |
| JpegWalk.UnrecognisedIff | base/exif.py:951-961 | a file is not recognised if and only if it starts neither with one of the two TIFF marks, which give offset 0 and their own letter, nor with 255 216 |
| Base64.DecodeEncode | base/ldif.py:164-164 | what the writer encodes decodes to the same bytes, the blank before it being skipped (RFC 2045, section 6.8) |
| Base64.EarlyPadding | base/ldif.py:354-355 | padding that comes too early is skipped, padding that does not complete a group is an error |
| Base64.EncodeChars | base/ldif.py:164-164 | encoded text has only characters of the alphabet and padding, so it needs no further protection |
| Base64.AlphabetIs | base/ldif.py:164-164 | values 0 to 63 are written as A to Z, a to z, 0 to 9, + and / |
| Base64.GroupOfThree | base/ldif.py:164-164 | three octets are four characters of six bits each, high bits first; one or two octets end in padding (also Base64.GroupOfOne, Base64.GroupOfTwo) |
| LdifText.FoldShape | base/ldif.py:131-150 | no physical line is longer than `cols`, each continuation is a space and at least one character, and there are 1 + ceil((len - cols) / (cols - 1)) of them when len > cols |
| LdifText.UnfoldFold | base/ldif.py:312-323 | unfolding gives back a folded line whatever line that is no continuation follows, for both separators |
| LdifText.UnfoldFoldAll | base/ldif.py:131-323 | unfolding inverts folding on every sequence of writable lines, for every width from 2 on and both separators |
| LdifText.UnfoldCrlf | base/ldif.py:268-323 | a text without CR unfolds to the same lines when every LF becomes CRLF |
| LdifRecord.FormatLineShape | base/ldif.py:152-167 | a written attribute is one line without separators that neither continues another line nor is a comment |
| LdifLaws.WrittenSafely | base/ldif.py:79-167 | a value is written as it is behind a colon and a blank if and only if it is a safe string of RFC 2849 that does not end with a blank and its type is not forced, and encoded behind two colons otherwise; either way the line has only characters 1 to 127 other than CR and LF |
| LdifLaws.RecordWritten | base/ldif.py:207-231 | a written record is its name, its attributes and an empty line, all of safe characters whatever its values |
| LdifLaws.FoldedAscii | base/ldif.py:131-150 | folding keeps such a text ASCII without NUL from end to end |
| LdifLaws.LowerIs | base/ldif.py:161-392 | lower-casing turns the 26 capitals into small letters and changes nothing else |
| LdifRecord.LineRoundTripIff | base/ldif.py:161-370 | a written pair reads back as itself if and only if it was encoded or its value is empty or does not start with white space; otherwise the white space is lost |
| LdifRecord.TabLost | base/ldif.py:79-370 | a value that starts with a tab loses it |
| LdifRecord.BlankAfterColonNeeded | base/ldif.py:370-370 | a value written directly behind the colon loses its first character when parsed |
| LdifLaws.PlainValue | base/ldif.py:366-370 | behind one colon the next character and all blanks after it are dropped, the rest is the value |
| LdifLaws.EncodedValue | base/ldif.py:351-355 | behind two colons the value is decoded |
| LdifLaws.LinesWithoutValue | base/ldif.py:337-360 | a line without a colon is an empty pair, an empty line or a URL value ends the record |
| LdifLaws.NoValue | base/ldif.py:340-370 | nothing behind the colon is an empty value |
| LdifLaws.CommentsSkipped | base/ldif.py:333-335 | lines that start with # are passed over |
| LdifLaws.RecordMeans | base/ldif.py:393-433 | after any pairs the record has the one name, and per attribute the values given under it in order, versions before the name and ignored types aside; or the error is that of the first faulty pair, the five faults being told by position |
| LdifLaws.RecordParsed | base/ldif.py:374-443 | the lines of any record followed by an empty one, whoever wrote them: its error, or the record if it has attributes, and parsing goes on behind it |
| LdifRecord.AtMostMax | base/ldif.py:380-441 | a non-zero maximum is never exceeded, whatever the input |
| LdifRoundTrip.ReadValues | base/ldif.py:392-436 | reading the lines of one attribute appends its values in order, whatever follows |
| LdifRoundTrip.ReadRecord | base/ldif.py:374-443 | the lines of a written record parse as one record, and parsing goes on behind it |
| LdifRoundTrip.EntryGivenBack | base/ldif.py:393-433 | the parsed entry has exactly the written attribute types in lower case, each with its values in order |
| LdifRoundTrip.ParseWritten | base/ldif.py:131-443 | round trip: any sequence of records, folded to any width, any separator, any set of forced types, parses to these records in order; a maximum keeps the first ones |
| LdifRoundTrip.ParseCrlf | base/ldif.py:268-443 | for any CR-free text the parser gives the same records, or the same failure, when every LF becomes CRLF |
| Ldif.SortKeys | base/ldif.py:174-175 | lists the attribute types once each in lexicographic order |
| Ldif.LexLessIs | base/ldif.py:174-175 | of two types the one with the smaller character at the first difference comes first, a prefix before what it is a prefix of |
| Ldif.LdifWriter.WriteLine | base/ldif.py:131-150 | the folding loop appends exactly the folded line to the output |
| Ldif.LdifWriter.WriteAttribute | base/ldif.py:152-167 | appends the folded line of a pair, encoded when its type is forced or its value is no safe string, as LdifLaws.WrittenSafely tells |
| Ldif.LdifWriter.WriteEntry | base/ldif.py:169-178 | appends the lines of every attribute, types sorted, the values of each in order |
| Ldif.LdifWriter.Unparse | base/ldif.py:207-231 | appends name, attributes and an empty line and counts the record; an empty record changes nothing |
| Ldif.CreateLdif | base/ldif.py:234-255 | the text of one record |
| Ldif.LdifParser.ReadLine | base/ldif.py:378-378 | after a line is read the pending lines are those of the unread text; an empty line means the end |
| Ldif.LdifParser.UnfoldLine | base/ldif.py:312-323 | consumes one logical line and its continuations and leaves the look-ahead on the next; pending lines get fewer, so each is read once |
| Ldif.LdifParser.ReadAttribute | base/ldif.py:325-372 | skips comments and interprets the next logical line, the state left being that line's successor |
| Ldif.LdifParser.ApplyAttribute | base/ldif.py:393-433 | what a pair does to the record being read, with the five errors |
| Ldif.LdifParser.ParseRecords | base/ldif.py:374-443 | terminates on every input; the records added and the error are those of the unfolded lines |
| Ldif.ParseLdif | base/ldif.py:493-501 | all records of a text |
| Ldif.WriteThenParse | base/ldif.py:113-443 | the objects together: records written one after the other by one writer and parsed by one parser come back in order, names in lower case, values as they were |
| DeviceId.ParseDeviceId | base/device.py:767-796 | the splitting loop and the renames compute the parsed map or fail (also dat2drv.py:763-792) |
| DeviceId.ParseFailsIff | base/device.py:785-793 | parsing fails if and only if the key that counts for the serial number, SERIAL, else SERN, else SN, is there without a value |
| DeviceId.ParsedFields | base/device.py:778-794 | otherwise MDL is that of MODEL, else of MDL, else empty, and SN that of the counting key, blank if it starts with X |
| DeviceId.OtherFieldsKept | base/device.py:781-794 | every other field comes out as written; MODEL and the key the serial number came from do not |
| DeviceId.FieldIs | base/device.py:771-776 | of a part of an ID the key stands before the first colon, blanks around it aside, the value before the second; what follows is dropped, and a key that is there already stays |
| DeviceId.PartsAdded | base/device.py:769-771 | parts are added in order, empty ones dropped |
| Blanks.StripMeans | base/device.py:769-774 | whatever blanks stand around a text, they go and it stays |
| DeviceId.FirstWinsIs | base/device.py:771-776 | of pairs with the same key the first counts |
| DeviceId.ParsePrinted | base/device.py:767-796 | parsing printed `key:value;` pairs gives the map of the pairs with defaults, renames and blanking applied (clause 7.6 of IEEE Std 1284-2000) |
| DeviceId.PrintedSerial | base/device.py:778-794 | printed pairs always parse, and the serial number is that of SERIAL, else SERN, else SN, blank if it starts with X |
| Device.Device.Open | base/device.py:1151-1202 | opens in the mode asked for, then reads ID and serial number, with every nested reopening; raises exactly when the driver refuses or the ID does not parse |
| Device.Device.CloseDevice | base/device.py:1205-1218 | closes every channel, then the device |
| Device.Device.OpenServiceChannel | base/device.py:1221-1251 | reopens in the other mode if need be, returns the recorded or a new channel, -1 if the device cannot be opened |
| Device.Device.CloseServiceChannel | base/device.py:1335-1347 | closes and forgets the channel recorded under the upper-cased name, if the device is open |
| Device.Device.FetchId | base/device.py:1366-1370 | one request for the device ID, parsed when the driver has one |
| Device.Device.ReadDeviceId | base/device.py:1354-1375 | reads the ID, opening and closing a device that was not open |
| Device.Device.ReadSerialNumber | base/device.py:1378-1402 | takes the serial number from the ID or asks for it over a PML channel, and closes that channel; which number results is DeviceSerial.SerialIs |
| DeviceSerial.SerialIs | base/device.py:1378-1402 | a known serial number stays; else a non-empty SN of the parsed ID is taken and nothing else changes, no request is made; else, with a status type, it is the answer to the last PML request, empty if that failed or had no value; else it stays empty |
| DeviceSerial.AskedOverPml | base/device.py:1390-1399 | a device not open for printing is asked over its HP-MESSAGE channel, opened if need be and closed afterwards, and nothing else changes |
| DeviceSerial.OpenedSerial | base/device.py:1151-1402 | opening with an unknown serial number: the one the ID text states (SERIAL, else SERN, else SN, blank if it starts with X) with just two requests made, else the last PML answer if there is a status type, else none |
| DeviceSerial.OpenedKnown | base/device.py:1151-1402 | opening with a known serial number makes just the two requests for device and ID; so does opening a device without a status type that hands out no ID |
| DeviceSerial.OpenFailsIff | base/device.py:1172-1202 | opening raises if and only if the driver refuses or the ID handed out does not parse |
| DeviceSerial.IdLeavesOpenIff | base/device.py:1354-1375 | asking a device that was not open for its ID leaves it open if and only if it was granted and the last ID it handed out does not parse; otherwise it is closed again |
| DeviceSerial.LeftOpen | base/device.py:1359-1363 | a device granted whose ID is the text SN is left open by a caller that never opened it |
| DeviceSerial.CloseUndoesOpen | base/device.py:1221-1347 | a new channel is one request, recorded under its name in capitals; closing it under any spelling of the name leaves the device as it was |
| DeviceSerial.OpenTwice | base/device.py:1239-1251 | asking again for a channel makes no request and gives the same number |
| DeviceSerial.UpperIs | base/device.py:1340-1340 | upper-casing turns the 26 small letters into capitals and changes nothing else |
| Device.Device.ReadPml | base/device.py:1986-2005 | one PML request over a channel that is opened for it |
| DeviceState.CloseKeepsHandles | base/device.py:1205-1218 | closing leaves no device handle, no channel, no dictionary entry |
| DeviceState.OpenKeepsHandles | base/device.py:1151-1202 | opening keeps the handle invariant through the mutual recursion, which terminates |
| DeviceState.ChannelKeepsHandles | base/device.py:1221-1251 | so does asking for a channel, with its close and reopen |
| DeviceState.RunKeepsHandles | base/device.py:1151-1402 | over every sequence of calls and every driver answer: live device handles are exactly {device_id} when open and none otherwise, live channels are in the dictionary and belong to that device, and no channel outlives its device |
| DeviceModes.QuietRun | base/device.py:1221-1249 | with the serial number known or no status type, over all runs channels exist only on an open device, the print channel alone when open for printing and never otherwise |
| DeviceModes.SeparatedExactly | base/device.py:1390-1399 | this separation holds for all runs and drivers if and only if the serial number is known or the model has no status type |
| DeviceModes.ChannelOnClosedDevice | base/device.py:1232-1245 | otherwise a nested reopening that fails is swallowed and the print channel is recorded on a device that is not open |
| DeviceModes.PrintBesideFax | base/device.py:1224-1249 | and with every request granted the print channel ends up beside a fax channel on a device not open for printing |
| DeviceModes.NamesExactly | base/device.py:1224-1238 | a channel name keeps the modes apart if and only if it is written in upper case when it names the print channel: the mode test precedes the upper-casing |
| Agents.FirstSameIs | base/device.py:1813-1820 | the inner loop finds the first reported agent whose kind and type both equal those of the listing, and none exactly when no agent has both |
| Agents.DeviceQuery.FindSame | base/device.py:1813-1820 | the inner loop as written, found and not found told by the two fields |
| Agents.DeviceQuery.HasSku | base/device.py:1785-1792 | whether any agent carries a non-empty SKU |
| Agents.DeviceQuery.QueryAgents | base/device.py:1775-1916 | the two-counter loop writes exactly the filter-map of the agents (all in order if any carries a SKU, else the first like each listing, unmatched listings skipped) under numbers 1.., every key but the descriptions, with the status code of the last one running low; it breaks off exactly when an agent lacks a SKU in the first case |
| AgentLaws.ShownIsListed | base/device.py:1771-1911 | when no agent names its SKU: result k shows kind, type and SKU of one listing of the region used, in the order of the listings, with what the first agent of equal kind and type reports; a listing is passed over exactly when no agent has both; other results stay. The region is the one asked for unless its first listing is missing or of kind 0 |
| AgentLaws.ShownIsReported | base/device.py:1785-1911 | when some agent names its SKU: result k shows agent k under its own SKU, up to the first agent without one, where the query breaks off |
| AgentLaws.StatusIs | base/device.py:1840-1862 | the status code becomes type + 1500 for ink, + 1600 for toner, of the last supply shown that is running low, and stays if none is |
| AgentLaws.ShownAbsent | base/device.py:1918-1961 | of a device not found the listings of region 0 up to the first missing or of kind 0 are shown with health 1, level 0 and trigger 7 |
| Agents.DeviceQuery.QueryAbsent | base/device.py:1918-1961 | for a device that was not found the listings of region 0 are written, whatever region was asked for |
| Agents.AbsentRegionIff | base/device.py:1920-1933 | that shows what the region asked for lists, with the fallback a found device has, if and only if this region is 0 or lists the same supplies as region 0, number by number |
| Agents.WrongRegionShown | base/device.py:1926-1927 | a device of region 2 for which the listing of region 0 is shown instead of its own |
| Agents.WriteNumbers | base/device.py:1871-1911 | writing n results over numbers 1..k leaves numbers 1..max(n,k), the first n new, the others as they were |
| Agents.AlwaysNumbered | base/device.py:1785-1961 | after any sequence of queries, found or not, the numbers in use are 1..k for k the most supplies any query showed |
| Agents.ScanMissesNone | levels.py:153-165 | on such results the scan that stops at the first missing number reads all of them |
| Agents.ScanShowsLastQuery | levels.py:153-165 | the scan shows exactly the supplies of the last query if and only if no earlier query showed more; stale entries are never removed |
| Agents.StaleSupplyShown | levels.py:153-165 | two supplies reported, then one: the scan still shows two |
| Agents.MissingSkuFails | base/device.py:1796-1800 | one agent with a SKU and one without: the query breaks off after the first |
| RingBuffer.RingBuffer.Append | base/utils.py:428-452 | appending keeps the newest `max` elements, in the growing and in the full form of the buffer and across the change between them |
| RingBuffer.RingBuffer.Replace | base/utils.py:436-459 | overwrites the newest element, wherever it is in the ring; fails on an empty buffer |
| RingBuffer.RingBuffer.Get | base/utils.py:440-462 | the elements from the oldest to the newest |
| RingBuffer.WriteOldest | base/utils.py:450-452 | overwriting the oldest element and advancing is dropping it and appending |
| RingBuffer.WriteNewest | base/utils.py:454-459 | stepping back, overwriting and stepping forward replaces the newest element |
| StatusService.DeviceCache.Record | hpssd.py:244-253 | adds an event to the history, over the newest one if that has the same code |
| StatusService.StatusService.CheckKnown | hpssd.py:224-241 | makes a cache for a new device if its URI parses; known devices are untouched |
| StatusService.StatusService.CreateHistory | hpssd.py:244-253 | updates the history of that device and no other, and reports a repetition |
| StatusService.StatusService.HandleUserEvent | hpssd.py:428-468 | history, tray unless repeated, toolbox always, plug-in installation for three codes |
| StatusService.StatusService.HandleFax | hpssd.py:257-278 | deposits a rendered fax of the service's user under (user, job); fails on a device without a cache |
| StatusService.StatusService.PassOn | hpssd.py:476-519 | who is told of each of the other events |
| StatusService.StatusService.HandleEvent | hpssd.py:392-519 | the whole event handler: the new state, and whether an exception was raised on the way |
| StatusFailures.RaisesIff | hpssd.py:409-498 | handling raises if and only if the event is reached and is a user event without a URI, or a rendered fax of the service's user with its pipe and no URI, or a reply without its length, or a reply of a device whose decoded status is again the code of a reply |
| StatusFailures.UserEventWithoutUri | hpssd.py:430-461 | a user event without a URI as the first event raises |
| StatusFailures.NestedReply | hpssd.py:348-355 | a reply that decodes to the code of a reply raises in the nested call |
| StatusService.StatusService.HandleDecodedReply | hpssd.py:348-357 | a decoded reply of a valid device becomes a status event of that device and a toolbox event |
| StatusService.StatusService.CheckForWaitingFax | hpssd.py:184-213 | hands over the fax asked for, or any one of the user's for job 0, and removes exactly that one; no other state changes but the cache made for a new device; fails on a URI that does not parse |
| StatusRuns.RememberCollapsed | hpssd.py:244-253 | replacing or appending in the bounded history commutes with collapsing repeated codes of the whole trace |
| ServiceRuns.HistoryAndTray | hpssd.py:392-468 | over any run of events of any devices, with faxes, replies and collections: a device's history is the last 50 of its user events, runs of equal codes collapsed to their latest, and the tray was sent exactly the first of each run |
| StatusLaws.HistoryIs | hpssd.py:392-468 | the same told by positions: newest last, the history holds the last event of each of the last 50 runs of equal codes, and the tray was sent the first event of every run |
| StatusLaws.CollapsedRuns | hpssd.py:244-253 | collapsing keeps the last event of each maximal run of equal codes, first events are those the runs begin with |
| StatusLaws.UserEventsGrow | hpssd.py:409-430 | an event counts for a device if it names it, is none of 900 and 5502, and its code is 500 to 7999; a code above 9999 is looked up in the PJL table once, any other is its own |
| StatusLaws.TrayGrows | hpssd.py:461-462 | what the tray was sent for a device's user events, event by event |
| StatusLaws.SeenIs | hpssd.py:348-355 | a decoded reply counts as an event of the service's user with the decoded status for its code |
| StatusLaws.UserEventIs | hpssd.py:424-468 | one user event: with its code looked up once if above 9999 it replaces the newest of equal code or follows at most the last 49; the tray is told unless it replaced; the toolbox always, under 9003; codes 502, 805 and 2003 ask for a plug-in |
| StatusLaws.FaxEventIs | hpssd.py:257-474 | code 8000 with a pipe, for the service's user, leaves that fax waiting under user and job; other codes of 8000 to 8999 leave nothing |
| StatusLaws.OtherEventIs | hpssd.py:476-515 | which of tray, I/O child and toolbox are told of each code from 9000 on, and that 9040 ends the service |
| StatusLaws.ReplyEventIs | hpssd.py:348-357 | a decoded reply is handled as that status event, then the toolbox is told under 9011; one that is not decoded changes nothing |
| StatusLaws.ServedAtOnce | hpssd.py:409-415 | codes 900 and 5502 are served at once, whatever device they name |
| StatusLaws.LowEventIs | hpssd.py:425-426 | codes below 500 change nothing |
| StatusLaws.FirstMet | hpssd.py:224-418 | a device met for the first time starts with no history and no faxes; if its URI does not parse the event is dropped |
| StatusLaws.AskTold | hpssd.py:184-213 | asking for a fax sends the tray event 9032 and changes no history and no other device |
| StatusLaws.JobCollected | hpssd.py:191-197 | asked for a job, the service hands over that user's fax of that job or none |
| StatusRuns.CollapseShape | hpssd.py:461-462 | no two neighbours in the collapsed trace have equal codes, and there is one per event sent to the tray, of the same code |
| StatusRuns.CollectAll | hpssd.py:199-213 | n collections with job 0 return all n waiting faxes of a user, after which none is left; other users' faxes stay |
| StatusRuns.EventsKeepFaxes | hpssd.py:257-278 | an event, with whatever comes with it, leaves every device's waiting faxes alone but for the fax it delivers for its own device, known before or not |
| StatusRuns.FaxesConserved | hpssd.py:184-278 | the ledger of one device: every deposited fax is in exactly one place, waiting, returned once, or overwritten by a later deposit for the same user and job |
| ServiceRuns.LedgersOf | hpssd.py:184-519 | every run of the service, events and collections mixed, is a run of that ledger for every device |
| ServiceRuns.ServiceConservesFaxes | hpssd.py:184-519 | over every run of the service, for every device: each fax delivered for it is waiting there, was handed over exactly once, or was overwritten by a later delivery for the same user and job; nothing else waits or is handed over |
| ServiceRuns.AskAll | hpssd.py:199-213 | asked with job 0 as often as faxes wait for a user, the service hands over all of them and keeps those of others |
| ReplyPipe.Pipe.WriteReply | hpdio.py:183-197 | puts exactly the reply into the pipe and announces its length |
| ReplyPipe.Pipe.ReadReply | hpssd.py:330-352 | for any read sizes: decodes exactly the announced number of octets and leaves the rest, or drains the pipe and decodes nothing; a single complete reply is always decoded whole |
| ReplyPipe.Pipe.ReadReplyGreedily | hpssd.py:330-352 | with full reads and more queued behind, the first reply is decoded if and only if its length is a multiple of 4096; otherwise everything queued is lost |
| ReplyPipe.RunsKeepOrder | hpssd.py:330-352 | when each reply is sent only after the one before was consumed: over all interleavings of the two processes and all read sizes replies are decoded whole and in order, none is lost |
| ReplyPipe.StuckIff | hpdio.py:189-193 | a reply under way is stuck if and only if it is longer than the pipe's capacity and has filled it |
| ReplyPipe.StepsBringRest | hpdio.py:183-197 | every other step lowers what remains to be done, so each reply that fits is consumed after finitely many steps |
| ReplyQueue.DecodedIsPrefix | hpssd.py:330-352 | however replies are sent, over all interleavings and read sizes: until the first loss the replies decoded are the first ones sent, whole and in order |
| ReplyQueue.StepStreams | hpssd.py:346-349 | a first loss is exactly giving up on a drained pipe after more was read than announced |
| ReplyQueue.OvershootIff | hpssd.py:334-344 | a read can go too far if and only if the pipe offers more than is missing of the reply, and then a later reply has been sent already |
| ReplyQueue.LossIff | hpssd.py:330-352 | in every run, whenever the service waits, replies have been lost if and only if some read went too far |
| ReplyQueue.Misdecoded | hpssd.py:330-352 | after a loss a reply can be decoded that was never sent, even with full reads: the tail of a third reply is taken for the second |
| Dime.BytesNeededIsLeast | base/dime.py:86-90 | the padded length is the least multiple of four that is long enough |
| Dime.Message.Generate | base/dime.py:51-83 | writes the whole message, or fails exactly when some length does not fit its field, having written all records before it and that record's header up to that field |
| Dime.Message.GenerateRecord | base/dime.py:58-83 | one record: header, padded identifier, type and payload |
| Dime.Message.AddRecord | base/dime.py:48-49 | appends a record |
| Dime.RecordReadsBack | base/dime.py:58-83 | a reader of section 3 of draft-nielsen-dime-02 takes exactly the record off any octets that start with it; the type code is kept in four bits |
| Dime.RecordLayout | base/dime.py:58-83 | octet by octet: version 1 with the two marks, type code, no options, three lengths high octet first, then identifier, type and payload, each filled with zeros to a multiple of four |
| Dime.BrokenIs | base/dime.py:66-75 | a record whose identifier, type or payload is too long is cut off behind 4, 6 or 8 octets |
| Dime.MessageReadsBack | base/dime.py:51-83 | every non-empty message is read back whole whatever follows it: the output marks its own end |
| Dime.RecordStarts | base/dime.py:54-62 | records start at multiples of four, and the begin and end marks are on exactly the first and the last one |
| Unescape.UnescapeText | base/magic.py:949-991 | the loop terminates on every text, a decoded backslash included, and computes the fixpoint of its turns |
| Unescape.AtEscapeShrinks | base/magic.py:952-989 | each continuing turn lowers the length, or keeps it and lowers the number of backslashes |
| Unescape.ScanDigits | base/magic.py:971-977 | the octal scan stays inside the text and stops behind the last digit |
| Unescape.TakeTurn | base/magic.py:950-989 | one turn acts on the first backslash only |
| Unescape.ReadEscape | base/magic.py:960-989 | the character an escape stands for and the text it takes, for each branch; a number that does not parse fails |
| Unescape.EndsAtUnknown | base/magic.py:949-991 | a result has no backslash, or its first one is followed by none of the known escapes |
| Unescape.PrefixKept | base/magic.py:952-958 | text before the first backslash passes unchanged |
| Unescape.EscapedCharTurn | base/magic.py:966-969 | a decoded character takes part in the next turn, so a decoded backslash starts a new escape |
| EscapeLaws.Octal | base/magic.py:973-982 | a backslash and the octal digits abc are the character 64a + 8b + c |
| EscapeLaws.BadOctal | base/magic.py:973-982 | a digit 8 or 9 in such a number is an error |
| EscapeLaws.Hexadecimal | base/magic.py:963-971 | a backslash, x or 0x, and two hexadecimal digits are the character of that value |
| EscapeLaws.LineFeed | base/magic.py:984-986 | a backslash and n are a line feed |
| Unescape.LoneBackslash | base/magic.py:959-961 | a backslash at the very end becomes a blank |
| Unescape.EscapeRoundTripIff | base/magic.py:949-991 | a text written in hexadecimal escapes comes back if and only if it has no backslash in it |
| Magic.ReadText | base/magic.py:1026-1034 | the lagging loop yields the octets at the offset only if one more octet follows them |
| Magic.Compare | base/magic.py:1012-1060 | the verdict of a row on the data: label, no match, or a type error for a mask on text |
| Magic.StringRowAccepts | base/magic.py:1024-1034 | a string row accepts if and only if its octets are at its offset and at least one more octet follows |
| MagicLaws.NumericVerdict | base/magic.py:1012-1060 | a numeric row accepts if and only if its octets are there and their number, masked if the row has a mask, equals its value; rows compare for equality only |
| MagicLaws.OtherVerdicts | base/magic.py:1012-1060 | a mask on octets is a type error; a row of no known kind compares its value with all the data |
| MagicLaws.DecidesIff | base/magic.py:1227-1232 | a row decides if comparing fails or its label is not empty |
| MagicLaws.ShortsAre | base/magic.py:1036-1043 | shorts in plain arithmetic: signed but for beshort; none where fewer than two octets are left |
| MagicLaws.LongsAre | base/magic.py:1045-1052 | longs are signed in every order; the native one is read only where a long has four octets |
| MagicLaws.MaskedBits | base/magic.py:1012-1014 | a masked number has, bit by bit, the bits both have, negative numbers extended with ones |
| Magic.StringRowCanMatchIff | base/magic.py:1024-1034 | some data matches a string row if and only if its value is octets and it has no mask; rows with character strings are dead |
| Magic.NumericRowCanMatchIff | base/magic.py:1036-1052 | some data matches an unmasked numeric row if and only if its kind is read in full and its value is in that kind's range; unsigned values of signed kinds, and native longs where a long has eight octets, are dead |
| Magic.DeadRow | base/magic.py:67-67 | the row for video/fli never matches |
| Magic.MaskedRowCanMatchIff | base/magic.py:1012-1052 | some data matches a masked numeric row if and only if its kind is read in full and its value has no bit outside the mask |
| Magic.WhatIs | base/magic.py:1227-1252 | the label of the first row that accepts with a non-empty label, a type error before it winning; else the fallback on NUL, C and Python marks |
| MagicLaws.FallbackIs | base/magic.py:1234-1253 | the fallback: data with a zero octet; C with #include or slash and three stars within 256 octets; Python with its interpreter line within 256 or def and a blank within 8192; else plain text |
| QueueName.FreeName | setup.py:436-445 | a name no queue of the back end or the device has: the model name, or it with the least free suffix from 2 on, found within as many tries as there are installed names (also setup.py:651-660) |
| QueueName.CandidatesDiffer | setup.py:440-441 | different suffixes give different names |
| QueueName.CandidateIs | setup.py:440-441 | a candidate is the model name, an underscore and the suffix in decimal without a leading zero |
| QueueName.TakenAtMost | setup.py:440-444 | pigeonhole: the taken candidates and the model name are at most as many as the installed names |

## Left out

- ExifHeader.ExifHeader.ListIfds: asks for a chain that ends, because the source loops for ever on any other; when a chain ends is settled by IfdChain.EndsExactly.
- Rebuild.ThumbnailKeepsMeaning: speaks of thumbnails readable inside the file, with one strip-offsets entry of numbers and as many byte counts as offsets; the failures of all other tables are in ThumbnailFailures.ExtractRaises.
- LdifRoundTrip.ParseWritten: widths from 2 on, because with one column the writer's loop does not advance; values are non-empty and not URLs, because the parser skips the former and ends the record at the latter; attribute types are legal, distinct in lower case and none of dn, changetype and the ignored ones.
- Ldif.LdifWriter.WriteLine: widths from 2 on, for the same reason.
- DeviceState.RunKeepsHandles: the device is supported (base/device.py:1152), because otherwise opening does nothing; results of close calls are ignored as the code ignores them.
- ServiceRuns.ServiceConservesFaxes: faxes delivered for a device are told apart by their file, because each deposit makes a temporary file of its own.
- StatusFailures.RaisesIff: an empty URI does not parse and so has no cache, as in every state a run reaches.
- ReplyPipe.RunsKeepOrder: a reply is sent only when the one before was consumed; runs without this restriction are in ReplyQueue.DecodedIsPrefix and ReplyQueue.LossIff.
- ReplyPipe.Pipe.WriteReply: the reply fits what is free in the pipe, because otherwise the call blocks, as ReplyPipe.StuckIff says.
- Agents.AlwaysNumbered: results hold only what the agent loops write; the status block is taken to add no numbered keys of its own.
- Unescape.UnescapeText: integer parsing of one or two plain hexadecimal digits is defined; for other characters after `0x` (blanks, underscores, non-ASCII digits) the result of the library is a parameter that may fail.
- Magic.MaskedRowCanMatchIff: masks that fit the octets read, because others see sign bits; every mask of the table fits.
- Printable forms of tag values (but for the ratios they reduce), tag names as data, MakerNote, EXIF, GPS and interoperability directories: table look-ups on top of the same reading functions.
- Sign extension of numbers: the source leaves it out too (base/exif.py:718-722).
- LDIF change records and URL values, the DN regular expression (a parameter `isDn`), attribute subclasses of the parser.
- The I/O mode taken from the model data when a device is opened (base/device.py:1163-1166): handed to the driver and used for nothing else there.
- PML value conversion, three-bit status, CUPS and SNMP calls, error codes and D-Bus signals of the device object.
- Logging, descriptions (the desc and health-desc keys of supplies among them) and their look-up by string identifier, the error-state map of status codes.
- Pickled contents: replies are octet strings and their status code a parameter of the event.
- Saving a fax from its pipe to its file and starting hp-sendfax, polling counters, which no code reads.
- Loading magic files (base/magic.py:1063-1137 and 1142-1223): not on the matching path; the table itself is abstract, its masks given as numbers (those written with a leading zero are read as decimal).
- The prompts of setup.py; the chosen name is compared with queues of its own back end only, so a print queue may get the name of a fax queue.
- Octets are numbers and bit operations are arithmetic on them; file reads are slices of the whole contents.
