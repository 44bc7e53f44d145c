# mada_reader in Dafny

This project models the decoding and analysis core of `mada_reader`. The library reads `.mada`
files written by the GBKB ("GigaIwaki") detector boards of a MADA data-acquisition system.

- **Frames** (`Parser`). A file's bytes are split into event pieces on the 4-byte marker
  `uPIC`, the way Python's `bytes.split` does it. Each piece then has a fixed 16-byte header
  that is decoded: 4 bytes that are skipped, then three big-endian unsigned 32-bit counters
  (trigger, clock, input-ch2). `EventHeader.col` renders the three counters as a
  tab-separated line.
- **Amplitudes** (`Gbkb`). For each event's four ADC channels the model computes:
  - the per-channel peak-to-peak spread;
  - the per-channel minimum and maximum, each less the channel's baseline. The baseline is the
    mean of samples `[600, 1000)`.
  - The per-file drivers collect these values over a file's events. Lists of amplitudes are
    flattened and averaged channel by channel.
- **Configuration** (`Config`). Boards and ADALM units come from decoded configuration
  records: their ids, connection polarity and position, the field validators, their names,
  and the list of active boards.
- **Files** (`Files`). One file name is generated per active board and period, with the
  period zero-padded to four digits. The generated names are checked for existence and put
  in order by two stable sorts: first by board id, then by period.

Supporting modules:

| module | contents |
|---|---|
| `Splitting` | a generic split/join |
| `Decimal` | `str(int)` and digit-string values |
| `Stats` | sum, mean, min and max over reals |
| `Slicing` | Python slices with clamped bounds |
| `Sorting` | Python string order and a stable sort by key |
| `Wrappers` | `Option` and `Result` |

Python's lists are sequences, bytes are `seq<byte>` over `newtype byte = 0..255`, and
strings are `seq<char>`. The ADC samples are integers, so every mean is exact over `real`.
Exceptions become `Err` values: `struct.error`, pydantic's `ValidationError`, `IndexError`,
`ValueError` and `FileExistsError`.

Where the code and its description differ, the model follows the code. Splitting on the
marker keeps the empty pieces that a leading, trailing or doubled marker produces, because
`bytes.split` keeps them; see `Parser.ReadFileKeepsEmptyPieces`. `parse_header` returns a
`(header, remainder)` pair even though it is annotated as returning a header.

The loops of the source are methods with loop invariants. Each one is proved equal to a
specification function, and the properties are proved about that function:

| method | proved equal to |
|---|---|
| `CalcFadcPeak2Peak` | `PeakToPeak` |
| `CalcFadcAmplitudes` | `Amplitudes` |
| `AmplitudesFromEvents` | `AmplitudePairs` |
| `AverageFlushAdcAmplitudes` | `Averages` |
| `MadaConfig.AvailableBoards` | `ActiveNames` |
| `Parse` | `ParseGigaIwaki` and `ParseAdalm`, record by record |
| `GenerateNames` | `TargetNames` |
| `FindMissing` | `FirstMissing` |
| `ScanMadaFiles` | `SortBy` |

## Model

| member | source | states |
|---|---|---|
| Parser.ReadFile | mada_reader/parser.py:16-17 | joining the pieces with `uPIC` gives the buffer back; no piece contains the marker; there is one piece more than there are non-overlapping marker occurrences |
| Parser.ReadFileOfJoin | mada_reader/parser.py:17 | splitting marker-free pieces joined by the marker returns exactly those pieces |
| Parser.ReadFileKeepsEmptyPieces | mada_reader/parser.py:17 | a buffer starting with the marker gives an empty first piece, which is kept |
| Parser.MarkerBorderFree | mada_reader/parser.py:17 | no proper prefix of `uPIC` is also a suffix of it, so occurrences of the marker cannot overlap |
| Splitting.JoinSplit | mada_reader/parser.py:17 | for any separator, joining the split pieces with the separator restores the input |
| Splitting.SplitCount | mada_reader/parser.py:17 | the number of pieces is the number of leftmost non-overlapping occurrences plus one |
| Splitting.SplitPiecesFree | mada_reader/parser.py:17 | no piece contains the separator |
| Splitting.SplitJoin | mada_reader/parser.py:17 | for a separator whose occurrences cannot overlap, split undoes join on separator-free pieces |
| Splitting.SplitFree | mada_reader/parser.py:17 | a buffer without the separator is one piece |
| Splitting.SplitAfterPiece | mada_reader/parser.py:17 | a separator-free piece followed by the separator splits off as the first piece |
| Parser.BigEndian32 | mada_reader/parser.py:32 | a big-endian `I` field is below 2^32 |
| Parser.BigEndian32OfEncode | mada_reader/parser.py:32 | decoding the big-endian encoding of a 32-bit value gives the value |
| Parser.EncodeOfBigEndian32 | mada_reader/parser.py:32 | encoding a decoded 4-byte field gives the bytes back |
| Parser.ParseHeader | mada_reader/parser.py:27-34 | fails exactly when the piece is shorter than 16 bytes; otherwise the counters are below 2^32 and the remainder has `len(event) - 16` bytes |
| Parser.ParseEncodedHeader | mada_reader/parser.py:31-34 | any 4 skipped bytes, then the big-endian counters, then a rest decode to the header and exactly that rest |
| Parser.EncodeParsedHeader | mada_reader/parser.py:31-34 | a decoded piece is its first 4 bytes, the encoded counters and the remainder, so nothing is lost |
| Parser.ParseHeaderIgnoresFirstBytes | mada_reader/parser.py:31 | two pieces that differ only in bytes 0..4 decode alike |
| Parser.ParseHeaderFixture | tests/test_parser.py:9-14 | the counter bytes of the test event decode to trigger 123, clock 1177695, input-ch2 0 |
| Parser.ParseHeaders | mada_reader/parser.py:20-24 | succeeds exactly when every piece has at least 16 bytes; then one header per piece, in piece order, each the header `parse_header` gives that piece |
| Parser.EventHeader.Col | mada_reader/parser.py:12-13 | the line splits on tabs into exactly the three counters in decimal, and each field's value is its counter |
| Decimal.NatToString | mada_reader/parser.py:13 | `str(n)` is a non-empty digit string without a leading zero |
| Decimal.IntToString | mada_reader/files.py:16 | `str(per)`: a non-negative number is written in digits that denote it; a negative one is a minus sign followed by digits that denote its magnitude |
| Decimal.NatToStringRoundTrip | mada_reader/parser.py:13 | the digits of `str(n)` denote n |
| Decimal.NatToStringLength | mada_reader/files.py:16 | a number below 10^k has at most k digits |
| Decimal.LeadingZerosValue | mada_reader/files.py:16 | zeros in front of a digit string do not change its value |
| Gbkb.PeakToPeak | mada_reader/rootfile_generator/gbkb.py:65-76 | no result exactly when some channel is empty; otherwise entry i is `max(ch_i) - min(ch_i)` and is not negative |
| Gbkb.CalcFadcPeak2Peak | mada_reader/rootfile_generator/gbkb.py:65-76 | the loop with its early return computes `PeakToPeak` |
| Gbkb.Amplitudes | mada_reader/rootfile_generator/gbkb.py:85-112 | no result exactly when ch0 does not hold 1024 samples or some channel is empty; the pair is tagged "min", "max" |
| Gbkb.CalcFadcAmplitudes | mada_reader/rootfile_generator/gbkb.py:85-112 | the channel loop computes `Amplitudes`: per channel, `min(ch_i)` and `max(ch_i)` less the mean of `ch_i[lo:hi]` |
| Gbkb.AmplitudesStraddleZero | mada_reader/rootfile_generator/gbkb.py:101-109 | each "min" amplitude is at most 0 and each "max" amplitude at least 0, since a baseline is a mean of the channel's own samples |
| Gbkb.Baseline | mada_reader/rootfile_generator/gbkb.py:101-104 | the mean of `ch[lo:hi]`; undefined (NaN) exactly when the channel ends at or before `lo` or `hi <= lo` |
| Gbkb.Baselines | mada_reader/rootfile_generator/gbkb.py:101-104 | one baseline per channel, four in all, in channel order |
| Gbkb.AmplitudesSpanPeakToPeak | mada_reader/rootfile_generator/gbkb.py:106-111 | per channel, "max" less "min" equals the peak-to-peak value |
| Gbkb.Peak2PeakFromEvents | mada_reader/rootfile_generator/gbkb.py:120-123 | at most one entry per event, each non-negative; when no event has an empty channel, exactly one per event, in order |
| Gbkb.Peak2PeakFromEventsMembers | mada_reader/rootfile_generator/gbkb.py:122-123 | the entries are exactly the peak-to-peak values of the events that have one |
| Gbkb.Peak2PeakFromEventsAppend | mada_reader/rootfile_generator/gbkb.py:122-123 | the filter keeps event order: the list for two runs of events is their two lists in sequence |
| Gbkb.AmplitudePairs | mada_reader/rootfile_generator/gbkb.py:135-141 | at most one pair per event, tagged "min" and "max" |
| Gbkb.AmplitudePairsAppend | mada_reader/rootfile_generator/gbkb.py:135-141 | collection goes event by event: the pairs of two runs of events are the two lists in sequence, so event order is kept |
| Gbkb.AmplitudePairsMembers | mada_reader/rootfile_generator/gbkb.py:135-141 | the pairs are exactly the amplitude pairs of the events that have them |
| Gbkb.AmplitudePairsAtMostPeak2Peak | mada_reader/rootfile_generator/gbkb.py:65-111 | no more amplitude pairs than peak-to-peak entries for the same events |
| Gbkb.AmplitudesFromEvents | mada_reader/rootfile_generator/gbkb.py:127-143 | the two lists have equal length, at most the number of events; entry k of each is the "min"/"max" of the k-th event that has amplitudes |
| Gbkb.Flatten | mada_reader/rootfile_generator/gbkb.py:151 | `chain.from_iterable`: the lists one after the other; when the result is empty is stated by `FlattenEmpty` |
| Gbkb.Averages | mada_reader/rootfile_generator/gbkb.py:154-160 | each channel's sum over the amplitudes divided by their number; `AveragesWithinExtremes` and `AveragesOfCopies` state its properties |
| Gbkb.FlattenEmpty | mada_reader/rootfile_generator/gbkb.py:151-153 | the flattened list is empty exactly when every inner list is, however many inner lists there are |
| Gbkb.AveragesWithinExtremes | mada_reader/rootfile_generator/gbkb.py:157-160 | each channel's average lies between that channel's smallest and largest value |
| Gbkb.AveragesOfCopies | mada_reader/rootfile_generator/gbkb.py:157-160 | averaging copies of one amplitude gives its value |
| Gbkb.AverageFlushAdcAmplitudes | mada_reader/rootfile_generator/gbkb.py:146-160 | fails exactly when the flattened input is empty; otherwise the tag of the first flattened amplitude with each channel's sum divided by the count |
| Stats.MinMaxBound | mada_reader/rootfile_generator/gbkb.py:73 | `min` and `max` are elements bounding every element |
| Stats.MeanBetweenMinMax | mada_reader/rootfile_generator/gbkb.py:102 | a mean lies between the minimum and the maximum |
| Stats.SumBounds | mada_reader/rootfile_generator/gbkb.py:159 | a sum of n values within [lo, hi] lies within [n·lo, n·hi] |
| Slicing.SliceElements | mada_reader/rootfile_generator/gbkb.py:102 | `s[lo:hi]` holds `min(hi, len(s)) - lo` elements, or none when that is not positive, and each is the element of `s` at the same offset from `lo` |
| Config.NamesDetermineIds | mada_reader/models/mada_config.py:24-38 | `GBKB-` + id and `MADALM_` + id are injective: equal names mean equal ids |
| Config.MadaConfig.AvailableBoards | mada_reader/models/mada_config.py:46-52 | the loop computes `ActiveNames`, so there are at most as many names as boards |
| Config.ActiveNames | mada_reader/models/mada_config.py:47-52 | the names of the active boards in board order, at most one per board; `ActiveNamesMembers` and `ActiveNamesOfActiveBoards` characterise it |
| Config.ActiveNamesOfActiveBoards | mada_reader/models/mada_config.py:49-51 | the names of the active boards are the active boards, filtered in order, then named |
| Config.ActiveNamesMembers | mada_reader/models/mada_config.py:49-51 | a name is available exactly when some active board has it |
| Config.ActiveBoards | mada_reader/files.py:13 | a board is kept exactly when it is in the list and active |
| Config.ActiveBoardsAppend | mada_reader/files.py:13 | the filter keeps input order: it distributes over concatenation |
| Config.Suffix | mada_reader/models/mada_config.py:72 | for n > 0, `s[-n:]` is the last n characters, or all of a shorter string |
| Config.CoerceDigit | mada_reader/models/mada_config.py:65-67 | a character coerces to an int exactly when it is a digit, and to that digit's value |
| Config.NewConnection | mada_reader/models/mada_config.py:8-11 | valid exactly when the position is 0, 1 or 2 |
| Config.ParseConnection | mada_reader/models/mada_config.py:64-70 | empty string: IndexError; first character neither 'a' nor 'c': failure; success exactly for 'a'/'c' first and '0'..'2' last; polarity from the first character, position from the last |
| Config.ParseConnectionString | mada_reader/models/mada_config.py:64-70 | any polarity letter, any middle part, then the position digit reads back as that connection |
| Config.ParseConnectionFixtures | tests/models/test_mada_config.py:9-74 | "a1-0" is anode 0 and "c1-2" is cathode 2 |
| Config.NewGigaIwaki | mada_reader/models/mada_config.py:14-22 | valid exactly when the id is one of 00, 01, 03, 10, 11, 13 and the threshold is in [0, 16384) |
| Config.NewAdalm | mada_reader/models/mada_config.py:29-35 | valid exactly when the id is 0, 1 or 2 |
| Config.ParseGigaIwaki | mada_reader/models/mada_config.py:62-79 | connection errors come first; success exactly when the connection parses, the last two key characters are a board id and the threshold is in range; the result is a valid board with those fields |
| Config.ParseAdalm | mada_reader/models/mada_config.py:82-89 | an empty key is an IndexError; success exactly when the key's last character is an ADALM id; the result is valid |
| Config.ParseGigaIwakiOfName | mada_reader/models/mada_config.py:62-79 | a valid board written under its own name as key reads back as that board |
| Config.ParseAdalmOfName | mada_reader/models/mada_config.py:82-89 | a valid ADALM written under its own name reads back as that ADALM |
| Config.Parse | mada_reader/models/mada_config.py:55-91 | succeeds exactly when every record converts; then one valid entry per record in key order, each the conversion of that record; otherwise the error of the first failing record |
| Files.ZFill | mada_reader/files.py:16 | `zfill(width)` has length `max(len, width)` |
| Files.PeriodField | mada_reader/files.py:16 | `str(per).zfill(4)` is at least four characters long; its digits are stated by `PeriodFieldDigits` and `PeriodFieldNegative` |
| Files.FileName | mada_reader/files.py:18 | the board's name, `_`, the padded period and `.mada`; its sort keys are stated by `FileNameKeys` |
| Files.BoardKey | mada_reader/files.py:26 | `name[5:7]` with Python's clamping: characters 5 and 6 of a long enough name, nothing from a name of at most 5 characters |
| Files.PeriodKey | mada_reader/files.py:27 | `name[8:12]` with Python's clamping: characters 8 to 11 of a long enough name, nothing from a name of at most 8 characters |
| Files.PeriodFieldDigits | mada_reader/files.py:16 | a non-negative period is written in digits that denote it, exactly 4 of them below 10000, unpadded from 4 digits on |
| Files.PeriodFieldNegative | mada_reader/files.py:16 | a negative period keeps its sign in front of the padding |
| Files.FileNameKeys | mada_reader/files.py:18-27 | for a valid board and a period below 10000, `name[5:7]` is the board id and `name[8:12]` the padded period |
| Files.DigitStringOrder | mada_reader/files.py:27 | equal-length digit strings compare as strings as their values compare as numbers |
| Files.FileNameOrder | mada_reader/files.py:26-27 | ordering names by period key, then board key, is ordering by period number, then board id |
| Files.PeriodNames | mada_reader/files.py:15-19 | one name per period of the range, none if it is empty |
| Files.TargetNames | mada_reader/files.py:12-19 | the names the two loops append, board after board; `TargetNamesMembers` and `TargetNamesCount` characterise it |
| Files.PeriodNamesMembers | mada_reader/files.py:15-19 | the names are exactly the board's files for periods in range |
| Files.TargetNamesMembers | mada_reader/files.py:14-19 | a name is generated exactly when it is the file of a listed board for a period in range |
| Files.ActiveTargetNamesMembers | mada_reader/files.py:13-19 | only active boards contribute names |
| Files.TargetNamesCount | mada_reader/files.py:14-15 | the count is boards × (final − initial + 1), or 0 when final < initial |
| Files.AppendPeriodNames | mada_reader/files.py:15-19 | the inner loop appends exactly `PeriodNames`: one board's file per period of the range, in period order |
| Files.GenerateNames | mada_reader/files.py:12-19 | the nested loops produce `TargetNames`, board after board, period after period |
| Files.FirstMissing | mada_reader/files.py:21-24 | none exactly when every name exists; otherwise the first name in list order that does not |
| Files.FindMissing | mada_reader/files.py:22-24 | the existence loop stops at `FirstMissing` |
| Files.ScanMadaFiles | mada_reader/files.py:6-29 | fails with the first missing name if any; otherwise a permutation of the generated names, ordered by period key with ties by board key |
| Files.FixtureTargetNames | tests/test_files.py:54-63 | for the test configuration and periods 0 to 1, the names generated before sorting |
| Sorting.SortBy | mada_reader/files.py:26-27 | `list.sort(key=...)` returns a permutation |
| Sorting.SortBySorted | mada_reader/files.py:26 | the sorted list is ordered by its key |
| Sorting.SortByStable | mada_reader/files.py:26-27 | a stable sort by one key of a list sorted by another orders by the first key, then the second |
| Sorting.InsertSortedByThen | mada_reader/files.py:26-27 | stable insertion keeps the two-key order |
| Sorting.LexLeTotal | mada_reader/files.py:26-27 | Python string order is total |
| Sorting.LexLeTransitive | mada_reader/files.py:26-27 | Python string order is transitive |
| Sorting.LexLeAntisymmetric | mada_reader/files.py:26-27 | Python string order is antisymmetric |
| Sorting.LexLeAppend | mada_reader/files.py:27 | equal-length strings compare at their first difference |

## Left out

- The waveform unpacking (`FlushADC`, `parse_flush_adc`, `parse_from_mada_file`) is not part of this model. An event's waveform is four integer sequences, and the per-file drivers take the already-decoded event list.
- Reading the file (`open(...).read()`) is I/O. `Parser.ReadFile` splits a given buffer.
- ROOT output, plotting (`mada_to_root`, `draw_waveform_hist2d`, `vis.py`, `pyroot_lib`) and the command line (`cli.py`) are foreign-library I/O and are not modelled.
- `json.loads` and the coercions pydantic applies are not modelled. The records arrive decoded and typed. The only coercion kept is the position character's conversion to an int (`Config.CoerceDigit`), and only ASCII digits coerce.
- Config.ParseConnection: a connection string that starts with neither 'a' nor 'c' fails with `UnboundConnection`. In the source, the first such record raises because `connection` is unassigned, but a later one silently reuses the previous record's connection. That stale value is not reproduced.
- Config.Parse: a missing key in a record (`KeyError`) cannot occur, because records arrive decoded.
- Files.ScanMadaFiles: the existence check is the parameter `isPresent`. The result is file names without the directory prefix, because `dir / name` only prepends the same directory to every name and has no effect on the order.
- Sorting.SortBy: `list.sort` is a library Timsort. It is modelled by its result, a stable insertion sort by key, and not by its algorithm.
- Gbkb.Amplitudes: requires that no baseline used is NaN. numpy's mean of an empty slice (a channel with at most 600 samples) gives NaN with a warning; IEEE NaN arithmetic is not modelled.
- Means and averages are exact `real` arithmetic, not IEEE floating point, and `float(...)` conversions are exact.
- Files.FixtureTargetNames: for the test configuration, the order after both sorts is established only through `Files.FileNameOrder` and `Sorting.SortByStable`. The sorted four-name list is not evaluated as a concrete value.
- Gbkb.CalcFadcAmplitudes: the baseline window bounds are non-negative (`nat`), and the model takes the window as an argument rather than defaulting it to `(600, 1000)`. Python also accepts negative slice bounds, counted from the end, but every caller passes `(600, 1000)`. Files.ScanMadaFiles likewise takes `initial` and `final` explicitly; the defaults `initial_period=0, final_period=0` are the call with both set to 0.
- `Files.ZFill`'s contract states only the length; the padding's meaning is stated by `Files.PeriodFieldDigits` and `Files.PeriodFieldNegative` for the periods the program formats.
