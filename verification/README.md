# kismet_baro ingestion client, modelled in Dafny

`kismet_baro_client.py` connects to a Kismet server over telnet. It reads
the server's text sentences line by line, remembers the latest `*GPS`
fix, and writes one CSV row for every `*NETWORK: ` sentence it receives
once the server's initial history replay (the "burst window") is over.
Each row holds the network's bssid, type, ssid and rssi, the current
coords, and a barometer altitude. After every row the file is flushed and
synced.

The model covers the parts of that client which are deterministic once
the socket and the barometer are taken away:

- `Text`: the Python string built-ins the client relies on, written out.
  - `p in s` is `Contains`.
  - `s.split(' ')` is `Split`, which keeps empty pieces.
  - The printable filter of `format_network` is `KeepPrintable`.
  - `int()` is `ParseInt`. It strips surrounding whitespace, takes an
    optional sign, then needs one or more decimal digits, as Python 2
    does.
- `Sentences`: `format_coords` and `format_network`. Crashes are error
  results (`Raised(IndexError)`).
- `CsvRecord`:
  - the fixed header;
  - `csv.DictWriter.writerow`: a missing key becomes "" and a key that is
    not a column raises ValueError;
  - `log_network_sighting`, where a coords entry wins over a network entry
    and `alt` wins over both.
- `Client`:
  - the loop state (`startTime`, `time`, `coords` and the file as a trace
    of events);
  - the ordered branch tests of the loop body (`Classify`) and the body
    itself (`Step`);
  - the loop over a finite list of received lines (`Run`, and the
    imperative `Ingest`). A session ends at the first uncaught exception.
- `Scenarios`: sessions built from concrete sentences (`*TIME: <n>`, a
  `*GPS` line, short and well-formed `*NETWORK: ` lines).

Lines keep the `"\n"` that `read_until("\n")` leaves on them. So the last
token of a GPS or NETWORK line (the fix, the rssi) ends in `"\n"` in the
model, as it does in the client.

Behaviour of the client that is easy to miss:

- GPS lines are dropped during the burst window. The burst test comes
  before the GPS test in the `elif` chain (lines 150 and 163), so a GPS
  line there does not move the coords. `GpsInWindow` and `BurstSession`
  state this.
- A malformed line is not recovered. It ends the session:
  - a TIME line whose token 1 is not an integer raises ValueError (line
    141), at any time;
  - after the burst window, a NETWORK line with fewer than five
    space-separated tokens raises IndexError (line 28);
  - after the burst window, so does a `*GPS` line with fewer than four
    tokens (line 163).

  The last two apply only when no earlier test of the `elif` chain
  matched the line (a TIME, KISMET or, for GPS, NETWORK tag).

  Inside the window the burst branch (line 150) catches such NETWORK and
  GPS lines first and ignores them (`BurstStep`). Nothing catches the
  exceptions, so no later line is read.
  `NetworkLineStep`, `GpsLineStep`, `TimeLineStep`, `CrashStops` and
  `CrashSession` state this.
- The start time is "unset" exactly when it is 0. So a `*TIME: 0` line
  leaves the window open and lets the next TIME line set the start time
  (`ZeroTime`).
- The window test is `time - start_time < 2` on raw server time. A TIME
  line that goes backwards reopens the window (`WindowStep`).
- The coords cells keep the fix token exactly as received, `"\n"`
  included, and the row's column order is the header's: lat, lon, fix,
  bssid, type, ssid, rssi, alt.

## Model

| member | source | states |
|---|---|---|
| Text.Contains | kismet_baro_client.py:139 | `p in s` holds exactly when `p` occurs in `s` at some index |
| Text.MissingChar | kismet_baro_client.py:139-166 | a tag with a character the line lacks is not in the line, so that test fails |
| Text.Split | kismet_baro_client.py:16 | `split(' ')` gives at least one piece, no piece holds a space, and joining the pieces with spaces gives back the line |
| Text.SplitUnique | kismet_baro_client.py:26 | any space-free pieces that join back to the line are exactly the pieces `split(' ')` gives, so `Split` is the cut-at-every-space reading |
| Text.SplitCount | kismet_baro_client.py:163 | a line split on spaces has one more token than it has spaces |
| Text.KeepPrintable | kismet_baro_client.py:25 | the filtered line is no longer than the line, and every character kept has a code strictly between 1 and 128 |
| Text.KeepPrintableSubset | kismet_baro_client.py:25 | the filter only drops characters: the multiset of characters kept is within the line's |
| Text.KeepPrintableAppend | kismet_baro_client.py:25 | filtering distributes over concatenation, so characters are judged one by one and kept in their order |
| Text.KeepPrintableChar | kismet_baro_client.py:25 | a single character is kept exactly when 1 < code < 128 |
| Text.KeepPrintableFixed | kismet_baro_client.py:25 | a line with only printable characters passes through unchanged |
| Text.ShowNat | kismet_baro_client.py:141 | the decimal text of a natural number is non-empty and all digits |
| Text.DigitsValueShowNat | kismet_baro_client.py:141 | reading back the decimal digits of `n` gives `n` |
| Text.ParseInt | kismet_baro_client.py:141 | `int()` of a token accepts it only when the token holds a digit and nothing but whitespace, digits and signs; `ParseShowInt` is its round trip |
| Text.TrimLeftKeeps | kismet_baro_client.py:141 | stripping leading whitespace removes only whitespace, so a string whose stripped form is written with number characters and holds a digit is too |
| Text.TrimRightKeeps | kismet_baro_client.py:141 | the same for trailing whitespace |
| Text.SignedKeeps | kismet_baro_client.py:141 | a stripped token accepted with a leading sign, or as bare digits, holds a digit and only whitespace, digits and signs |
| Text.ParseShowInt | kismet_baro_client.py:141-144 | `int()` of an integer's decimal text, with any whitespace around it (the line's `"\n"` included), gives that integer back |
| Sentences.Fields | kismet_baro_client.py:17-18 | the dict built by assigning `vals[i]` to each name has exactly the names as keys; a name's value is the one at its last position |
| Sentences.FieldsUnroll | kismet_baro_client.py:17-18 | for three or four names that dict is the successive assignments in order |
| Sentences.FormatCoords | kismet_baro_client.py:13-19 | succeeds exactly when the raw line has at least 3 spaces; then lat, lon, fix are tokens 1, 2, 3; otherwise IndexError |
| Sentences.FormatNetwork | kismet_baro_client.py:21-29 | succeeds exactly when the line has at least 4 spaces; then the keys are bssid, type, ssid, rssi with tokens 1 to 4 of the filtered line; otherwise IndexError |
| Sentences.FilterKeepsSpaces | kismet_baro_client.py:25-26 | filtering keeps every space, so it never changes how many tokens a NETWORK line has |
| Sentences.NetworkFieldsClean | kismet_baro_client.py:25-28 | no parsed network field contains a space or a character the filter drops |
| Sentences.SplitPiecesFrom | kismet_baro_client.py:26-28 | every character of a token is a character of the line it was cut from |
| CsvRecord.HeaderLayout | kismet_baro_client.py:102-103 | the columns are lat, lon, fix, bssid, type, ssid, rssi, alt; every field is a column; no column appears twice |
| CsvRecord.HeaderRow | kismet_baro_client.py:102-105 | the header line's cells are the column names in that order |
| CsvRecord.DictRow | kismet_baro_client.py:104 | a dict writer's row: ValueError exactly when the dict has a key that is not a column, otherwise one cell per column holding the dict's value or "" |
| CsvRecord.WriteRowLayout | kismet_baro_client.py:102-104 | with this header writing never raises, and the cells come out in header order |
| CsvRecord.ReadBackRow | kismet_baro_client.py:102-105 | reading a written row back against the header gives every column the dict's value for it, or "" when the dict has none |
| CsvRecord.Sighting | kismet_baro_client.py:33-34 | the merged dict has the keys of both dicts plus alt; coords win over network on a shared key, alt wins over both |
| CsvRecord.SightingCells | kismet_baro_client.py:33-35 | each cell of a sighting comes from the coords (or ""), from the network fields, or from alt |
| CsvRecord.SightingRow | kismet_baro_client.py:31-35 | the row written for a parsed network and held coords, cell by cell |
| CsvRecord.LogSighting | kismet_baro_client.py:31-35 | writing a sighting never raises; the row is the three coords cells (empty with no fix), bssid, type, ssid, rssi, and alt |
| Client.StartState | kismet_baro_client.py:102-105 | the loop starts inside the burst window, well formed, with only the header in the file |
| Client.Rows | kismet_baro_client.py:157 | a list of cells is among the rows exactly when the file holds a row event with those cells; with `RowsAppend` the rows come in file order |
| Client.RowsAppend | kismet_baro_client.py:157 | the rows of two pieces of the file are the rows of the first followed by those of the second |
| Client.GroupsAppend | kismet_baro_client.py:157-161 | two runs of write, flush, sync groups placed end to end are one run of such groups |
| Client.GroupsOrder | kismet_baro_client.py:157-161 | in a run of such groups no header appears, and every row is followed by a flush and then a sync |
| Client.TraceOrder | kismet_baro_client.py:105-161 | in a well-shaped file the header is first and appears nowhere else, and every row is followed at once by a flush and then a sync |
| Client.AppendRecord | kismet_baro_client.py:157-161 | appending a row, a flush and a sync keeps the file well shaped and adds exactly that row to the rows |
| Client.Classify | kismet_baro_client.py:139-171 | each line takes exactly one branch, the first of TIME, KISMET, burst, NETWORK, GPS, PROTOCOLS, other whose test holds, each branch stated as an if-and-only-if over the earlier tests; a `*GPS` line with under four tokens raises IndexError in its test |
| Client.WindowStep | kismet_baro_client.py:139-150 | the window test `time - start_time < 2` (`InBurst`) changes only on a TIME line: one that sets the start time leaves the window open, a later one closes it exactly when its time is at least 2 past the start time, so a clock running backwards reopens it |
| Client.Step | kismet_baro_client.py:136-171 | one line: the file only grows, a set start time is kept, only a GPS line moves the coords, only a NETWORK line writes, and well-formedness is kept |
| Client.Record | kismet_baro_client.py:155-161 | a NETWORK line succeeds exactly when its filtered form has at least five tokens, and then writes the row of coords cells, tokens 1 to 4 and alt; otherwise IndexError |
| Client.NetworkCells | kismet_baro_client.py:156 | a parsed network has exactly the four network keys, holding tokens 1 to 4 of the filtered line |
| Client.WriteRow | kismet_baro_client.py:157-161 | writing a row appends the row, a flush and a sync, keeps the file well shaped, and changes nothing else |
| Client.TimeLineStep | kismet_baro_client.py:139-144 | a TIME line sets time to int(token 1), sets the start time only while it is 0, and leaves coords and file alone; a TIME line always has a token 1, so its only error is ValueError, when token 1 is not an integer |
| Client.TimeHasToken1 | kismet_baro_client.py:139-141 | the TIME tag ends in a space, so a line that passes the TIME test has a token 1 and `split(' ')[1]` never raises |
| Client.BurstStep | kismet_baro_client.py:150-153 | inside the window every line other than TIME and KISMET changes nothing, GPS and NETWORK included |
| Client.QuietStep | kismet_baro_client.py:146-171 | KISMET, burst, PROTOCOLS and unrecognised lines change nothing |
| Client.NetworkLineStep | kismet_baro_client.py:155-161 | after the window a NETWORK line succeeds exactly when it has at least 4 spaces, and then appends one row (coords cells, tokens 1 to 4, alt) with a flush and a sync, leaving the coords alone |
| Client.GpsLineStep | kismet_baro_client.py:163-164 | after the window a GPS line with a non-empty token 3 replaces the coords by tokens 1 to 3, one with an empty token 3 changes nothing, one with under 3 spaces raises IndexError |
| Client.Run | kismet_baro_client.py:136-171 | a session over the received lines: the file only grows, a crash is at one of the lines, a set start time is kept, and well-formedness is kept |
| Client.RunAppend | kismet_baro_client.py:136-137 | reading two blocks of lines is reading the first, then, unless it crashed, the second from where the first ended |
| Client.RunAfterStep | kismet_baro_client.py:136-137 | a line that does not raise hands its state on to the lines after it |
| Client.CrashStops | kismet_baro_client.py:136-171 | a line that raises ends the session at that line, with the state the earlier lines left; later lines are never read |
| Client.NoTimeNoChange | kismet_baro_client.py:150-153 | while no TIME line arrives inside the window, a session changes nothing at all |
| Client.Ingest | kismet_baro_client.py:132-171 | the loop computes exactly the session `Run` describes, and ends in a well-formed state |
| Scenarios.TimeSentenceTagged | kismet_baro_client.py:139 | a `*TIME: <n>` sentence passes the TIME test |
| Scenarios.TimeSentenceTokens | kismet_baro_client.py:141 | a `*TIME: <n>` sentence splits into the tag and the epoch text with its "\n" |
| Scenarios.TimeTokenValue | kismet_baro_client.py:141 | int() of the epoch token, "\n" included, is the epoch |
| Scenarios.FirstTime | kismet_baro_client.py:139-142 | the first nonzero TIME sentence sets both start time and time to its epoch |
| Scenarios.LaterTime | kismet_baro_client.py:143-144 | a later TIME sentence moves only the time, even backwards |
| Scenarios.ZeroTime | kismet_baro_client.py:140-142 | a TIME sentence for epoch 0 leaves the state as it was |
| Scenarios.GpsTokens | kismet_baro_client.py:16 | the example GPS line splits into the tag, lat, lon and the fix with its "\n" |
| Scenarios.ShortNetworkCount | kismet_baro_client.py:26-28 | the example NETWORK line missing its rssi has only 3 spaces |
| Scenarios.GpsInWindow | kismet_baro_client.py:150-153 | inside the window the example GPS line is dropped: the coords stay empty |
| Scenarios.NetworkInWindow | kismet_baro_client.py:150-155 | inside the window the example NETWORK line writes nothing |
| Scenarios.GpsAfterWindow | kismet_baro_client.py:163-164 | after the window the example GPS line sets the coords to 1.0, 2.0 and "ok\n" |
| Scenarios.ShortNetworkAfterWindow | kismet_baro_client.py:155-156 | after the window a NETWORK line missing its rssi raises IndexError |
| Scenarios.GpsFixCells | kismet_baro_client.py:33 | the coords cells of the example fix |
| Scenarios.BurstSession | kismet_baro_client.py:139-153 | one TIME sentence followed by any lines without a TIME tag leaves the file with just the header and the coords empty |
| Scenarios.ClosedWindowSession | kismet_baro_client.py:139-150 | two TIME sentences leave the clock at the second, with no coords and no row |
| Scenarios.CrashSession | kismet_baro_client.py:136-156 | after the window a NETWORK line with under 4 spaces ends the session at that line, whatever follows |
| Scenarios.FixSession | kismet_baro_client.py:163-164 | after the window the example GPS line sets the coords and writes nothing |
| Scenarios.RecordSession | kismet_baro_client.py:155-164 | after the window and the GPS line, any well-formed NETWORK line gives exactly one row: the fix, tokens 1 to 4, its altitude |

## Left out

- The telnet connection and the handshake writes (lines 118-130). The received lines are the input sequence. The client reads until the server closes the connection, where `read_until` raises EOFError and, since the loop catches nothing, the session ends; the end of the input sequence (`Finished`) stands for that point.
- The BMP085 barometer (lines 107-115 and the read at line 157). The altitude is an opaque string supplied with each line. What `csv` makes of the float it returns is not modelled.
- Option parsing, usage, the root check and opening the output file (lines 37-100). The loop starts with the header already written.
- Every `print` (lines 147-148 and 171). They write to the console, not to the output file.
- What `flush` and `os.fsync` guarantee about storage (lines 160-161). They are events in the file's trace, ordered after the row they follow.
- CSV quoting and escaping. A row is its list of cells.
- Python 2 byte strings. A line is a sequence of characters, and the filter compares character codes.
- `generate_kmz.py`. The only part of it modelled is its reading rows back by column name (`ReadBackRow`); its interpolation and rendering are floating point and library calls.
- Scenarios.NetworkInWindow: the example NETWORK line is shown to be dropped inside the window. There is no concrete NETWORK sentence with its written row, because working such a literal through the whole parser is too costly for the verifier. `RecordSession` states the row for any well-formed NETWORK line instead.
