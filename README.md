# qtgpsc client core in Dafny

This project models the client side of qtgpsc, a Qt front end for the gpsd
daemon, and proves properties of that model. It covers four parts:

- **`Client.Gpsd`** (`gpsd.dfy`) wraps one connection to the daemon. It
  keeps a live record, which the library overwrites on every read, and an
  exposed copy, which the rest of the program reads. One read ends in one
  of three ways:
  - a failed read forces a disconnect and is reported as an error;
  - a read from a device other than the watched one is dropped;
  - otherwise the record is published and a fixed-order fan-out of signals
    is emitted, chosen by the record's mask of "set" bits.

  Emitted signals are recorded in order in a `signals` field. The results of
  `gps_open()` and `gps_read()` are passed in as parameters (`OpenResult`,
  `ReadResult`).
- **`RawText`** (`raw_text.dfy`) holds the string processing of the raw-data
  pane:
  - splitting and trimming lines;
  - the two line shapes, an NMEA 0183 sentence `$…*XX` and lowercase hex
    pairs;
  - regrouping a hex line into byte tokens, up to 24 per row with an extra
    space after every 8, where the byte counter is recovered from the text
    already shown.

  **`RawViewer.GpsdRawDataViewer`** (`raw_viewer.dfy`) is the pane itself:
  its format, host and port state machine, and `updateData`, proved against
  the function `Shown` of the old text, the format and the buffer.
- **`QualityWidget.GpsWidget`** (`gps_widget.dfy`) covers two things:
  - filtering out the PRN −1 "no satellite" slots;
  - the exclusive fix-quality buttons selected by the GGA quality code.
- **`MainWindow`** (`main_window.dfy`) covers the main window:
  - a `ComboBox` model of the device selector;
  - `setDevice`, `updateDeviceList` and `updateConstellation`;
  - the fix-mode caption, the connect button guards and the error message.

`GpsTypes` (`gps_types.dfy`) holds the shared types:
- the mask bits, modelled as a set of distinct flags, with the integer
  mask and C's `&` beside it to show that the two readings agree;
- the watch modes;
- the part of `gps_data_t` that the client reads;
- the satellite value.

## Model

| member | source | states |
|---|---|---|
| GpsTypes.Index | src/gpsd.cpp:102-105 | each flag has a bit position within the mask, and AllFlags lists the flag of each position |
| GpsTypes.IndexOfPosition | src/gpsd.cpp:102-105 | no two flags share a position |
| GpsTypes.BitIsPower | src/gpsd.cpp:102-105 | each flag's *_SET constant is a single bit, 2 to the power of its position |
| GpsTypes.MaskFromMeet | src/gpsd.cpp:104 | the `&` of two integer masks is the integer mask of the flags both hold |
| GpsTypes.MaskFromZero | src/gpsd.cpp:104 | an integer mask is zero iff none of its flags is set |
| GpsTypes.MaskTest | src/gpsd.cpp:102-105 | the integer test `(a & b) != 0` holds iff the two sets of flags intersect |
| GpsTypes.MaskBitsMember | src/gpsd.cpp:102-105 | a flag is in a set iff `mask & f` is non-zero for its constant `f` |
| GpsTypes.MaskBitsInjective | src/gpsd.cpp:102-105 | two sets with the same integer mask are equal, so the set reading loses nothing |
| Client.Gpsd.constructor | src/gpsd.cpp:23-47 | a new client is disconnected (descriptor 0), has empty host, port and device, exposes the live record, and has emitted nothing |
| Client.Gpsd.FlagBits | src/gpsd.cpp:102-105 | `flag(f)` on the set of flags is the source's integer test `(set & f) != 0` on the exposed record's mask; the live record plays no part |
| Client.Gpsd.SetDevice | src/gpsd.cpp:87-90 | only the watched device changes |
| Client.Gpsd.DisconnectFromServer | src/gpsd.cpp:76-85 | does nothing when not connected; otherwise marks the descriptor closed and emits connectionStatus(false) exactly once; nothing else changes |
| Client.Gpsd.ConnectToServer | src/gpsd.cpp:54-74 | disconnects first when connected; stores host and port whatever the outcome; connected iff the open succeeded; on success emits connectionStatus(true) and records the watch mode; on failure emits connectionError only for a non-zero errno |
| Client.Gpsd.HandleInput | src/gpsd.cpp:107-152 | ends in `Handled(r)`, the twostate predicate shared with the viewer: a failed read disconnects, then emits connectionError with the captured errno, and leaves the exposed record as it was; a read from an unwatched device changes no signal, no exposed data and not the connection; an accepted read makes the exposed record equal to the live one and emits exactly `Notifications(set)` |
| Client.Gpsd.EmitNotifications | src/gpsd.cpp:132-151 | the step-by-step emissions append exactly `Notifications` of the published mask |
| Client.NotificationsSpec | src/gpsd.cpp:131-151 | dataReceived comes first and only once, even with no bit set; positionUpdated iff a position bit is set; constellationUpdated iff SATELLITE; deviceListUpdated iff DEVICELIST; dataUpdated iff DEVICEID, MODE or SATELLITE; the order is fixed |
| Client.GenericFlagsTest | src/gpsd.cpp:146-148 | the three-way test on DEVICEID, MODE and SATELLITE is the intersection with that set |
| Client.LatLonAndTimeNotify | src/gpsd.cpp:132-136 | LATLON with TIME raises dataReceived and positionUpdated and nothing else |
| Client.TimeAloneNotify | src/gpsd.cpp:134-151 | TIME alone raises only dataReceived |
| Client.ModeAloneNotify | src/gpsd.cpp:132-151 | MODE alone raises dataReceived and then dataUpdated, and no position update |
| Client.FailedReadScenario | src/gpsd.cpp:115-121 | after connecting, a failed read with errno 5 leaves the client disconnected, having emitted connectionStatus(true), connectionStatus(false), connectionError(5) |
| Client.OtherDeviceScenario | src/gpsd.cpp:128-129 | watching /dev/ttyUSB0, a read from /dev/ttyUSB1 keeps the connection, emits nothing and leaves the exposed record and its flags unchanged |
| Client.AcceptedReadScenario | src/gpsd.cpp:131-136 | an accepted LATLON and TIME read is published and raises dataReceived then positionUpdated; flag(LATLON) holds and flag(MODE) does not |
| RawText.Split | src/gpsdrawdataviewer.cpp:103 | `split("\n")` yields at least one piece; no piece holds a newline; joining the pieces gives the buffer back |
| RawText.SplitJoin | src/gpsdrawdataviewer.cpp:113 | splitting newline-free lines joined by newlines gives the lines back |
| RawText.SplitAppend | src/gpsdrawdataviewer.cpp:103 | a newline-free head joins the first piece of what follows it |
| RawText.SplitSingle | src/gpsdrawdataviewer.cpp:113 | a line without a newline splits into itself |
| RawText.TrimStart | src/gpsdrawdataviewer.cpp:105 | the result is a suffix that does not start with white space, and all that was removed is white space |
| RawText.TrimEnd | src/gpsdrawdataviewer.cpp:115 | the result is a prefix that does not end with white space, and all that was removed is white space |
| RawText.TrimSpec | src/gpsdrawdataviewer.cpp:105 | `trimmed()` keeps one contiguous part of the line, removes only white space on either side, and leaves none at either end |
| RawText.TrimKeepsInfix | src/gpsdrawdataviewer.cpp:105 | the trimmed line is the infix starting after the leading white space |
| RawText.TrimDropsTrailingSpace | src/gpsdrawdataviewer.cpp:115 | everything dropped after the kept part is white space |
| RawText.TrimUnpaddedResult | src/gpsdrawdataviewer.cpp:115 | the trimmed line neither starts nor ends with white space |
| RawText.TrimUnpadded | src/gpsdrawdataviewer.cpp:105 | a line with no white space at its ends is left as it is |
| RawText.TrimIdempotent | src/gpsdrawdataviewer.cpp:105 | trimming twice is trimming once |
| RawText.TrimPadding | src/gpsdrawdataviewer.cpp:105 | a space on each side of an unpadded line is removed |
| RawText.NmeaShape | src/gpsdrawdataviewer.cpp:90 | a line fully matches `^\$.*\*..$` iff it is `$`, a payload, `*` and exactly two characters |
| RawText.NmeaSampleKept | src/gpsdrawdataviewer.cpp:105-107 | the sample sentence `$GPGGA,1*1A` is kept |
| RawText.NmeaSampleShortChecksum | src/gpsdrawdataviewer.cpp:106 | a sentence with only one character after the `*` is dropped |
| RawText.HexLineIsHexPairs | src/gpsdrawdataviewer.cpp:91 | a line fully matches `^([0-9a-f]{2})+$` (read as one or more pairs) iff it is non-empty, of even length and made only of `[0-9a-f]` |
| RawText.HexLinePlain | src/gpsdrawdataviewer.cpp:115-116 | a hex line holds no space and no newline and is its own trim |
| RawText.LastNewlineSpec | src/gpsdrawdataviewer.cpp:118 | `lastIndexOf("\n")` is the position of a newline with none after it, and -1 iff the text holds no newline |
| RawText.RowLengthAppend | src/gpsdrawdataviewer.cpp:118 | the characters after the last newline of a concatenation come from its tail when the tail holds a newline |
| RawText.ColumnOfRow | src/gpsdrawdataviewer.cpp:119 | for 0 ≤ k < 24, `(c - c/24)/3` with c = 3k + k/8 gives back k |
| RawText.RowAtShape | src/gpsdrawdataviewer.cpp:118-119 | a last row of exactly k < 24 tokens (3k + k/8 characters) is the same as a row of that shape whose recovered counter reads k |
| RawText.SepPeriodic | src/gpsdrawdataviewer.cpp:123 | the separator depends only on the counter modulo 24 |
| RawText.RegroupedPeriodic | src/gpsdrawdataviewer.cpp:120-124 | counters congruent modulo 24 lay a line out identically |
| RawText.RegroupedSplit | src/gpsdrawdataviewer.cpp:120-124 | regrouping a + b (a of even length) is regrouping a, then b with the counter advanced by \|a\|/2 |
| RawText.RegroupedToken | src/gpsdrawdataviewer.cpp:120-124 | token j of a line of length 2k is `line.mid(2j, 2)`; it stands after the first j tokens and before the separator for byte n + j + 1 |
| RawText.StepShape | src/gpsdrawdataviewer.cpp:121-123 | after a row of k tokens, one token and its separator leave a row of k + 1 tokens, or an empty row after the 24th |
| RawText.RegroupedAt | src/gpsdrawdataviewer.cpp:120-124 | after a row of k tokens, a regrouped line of m bytes leaves a row of (k + m) mod 24 tokens |
| RawText.RegroupedShape | src/gpsdrawdataviewer.cpp:118-124 | after a well-shaped row, a regrouped line keeps the shape and advances the column by its number of bytes, modulo 24 |
| RawText.Continuation | src/gpsdrawdataviewer.cpp:118-126 | regrouping a + b from the recovered column equals regrouping a, recovering the column from the new text, then regrouping b |
| RawText.RegroupedRoundTrip | src/gpsdrawdataviewer.cpp:120-124 | removing the separators from a regrouped hex line gives the line back: its bytes in order, nothing added or lost |
| RawText.RegroupedSample | src/gpsdrawdataviewer.cpp:120-124 | "0a1b2c3d" from the row start becomes "0a 1b 2c 3d " |
| RawText.RegroupLine | src/gpsdrawdataviewer.cpp:117-124 | the counter-and-append loop builds exactly `Regrouped(line, Column(shown))` |
| RawViewer.AppendLinesCons | src/gpsdrawdataviewer.cpp:107 | appending one non-empty paragraph and then more is appending them all at once |
| RawViewer.Sentences | src/gpsdrawdataviewer.cpp:104-110 | the kept lines are no more than the input lines, and each has the sentence shape |
| RawViewer.SentencesMembership | src/gpsdrawdataviewer.cpp:104-110 | a line is kept iff it is a trimmed input line of the sentence shape |
| RawViewer.SentencesAppend | src/gpsdrawdataviewer.cpp:104-110 | filtering commutes with concatenation, so the input order is kept |
| RawViewer.SentencesOfSentences | src/gpsdrawdataviewer.cpp:104-110 | lines that are all trimmed sentences are all kept |
| RawViewer.NmeaShownLines | src/gpsdrawdataviewer.cpp:102-111 | NMEA mode appends the kept sentences, in order, one paragraph each, after the existing text; other lines are dropped silently |
| RawViewer.NmeaPassThrough | src/gpsdrawdataviewer.cpp:102-111 | a buffer of trimmed, newline-free sentences comes out unchanged, one per paragraph |
| RawViewer.JsonVerbatim | src/gpsdrawdataviewer.cpp:99-101 | JSON mode keeps the old text and ends with the buffer verbatim, with one newline between them unless the view was empty |
| RawViewer.OtherModesShowNothing | src/gpsdrawdataviewer.cpp:130-132 | None and Raw append nothing |
| RawViewer.HexShownKeepsShape | src/gpsdrawdataviewer.cpp:112-129 | hex mode keeps the last row in the shape the counter formula relies on |
| RawViewer.EmptyRowShape | src/gpsdrawdataviewer.cpp:118-119 | an empty view is a well-shaped row at column 0 |
| RawViewer.HexShownLine | src/gpsdrawdataviewer.cpp:112-129 | a single hex line appends its regrouping from the recovered column |
| RawViewer.HexContinues | src/gpsdrawdataviewer.cpp:112-129 | showing hex a and then b equals showing a + b at once |
| RawViewer.HexSample | src/gpsdrawdataviewer.cpp:112-129 | on an empty view, "0a1b2c3d" shows as "0a 1b 2c 3d " |
| RawViewer.SplitHexSample | src/gpsdrawdataviewer.cpp:112-129 | "0a1b" then "2c3d" show as "0a 1b 2c 3d ", the same as one call on "0a1b2c3d" |
| RawViewer.FormatSelectable | src/gpsdrawdataviewer.cpp:33-36 | a mode is offered by some selector entry iff it is not Raw: None, JSON, NMEA and hex each have one |
| RawViewer.FormatsDistinct | src/gpsdrawdataviewer.cpp:33-36 | the four entries carry distinct modes, and Raw is not among them |
| RawViewer.GpsdRawDataViewer.constructor | src/gpsdrawdataviewer.cpp:24-48 | empty host, port 0, format None, selector on entry 0, empty view, disconnected |
| RawViewer.GpsdRawDataViewer.SetHost | src/gpsdrawdataviewer.cpp:50-53 | only the host changes |
| RawViewer.GpsdRawDataViewer.SetPort | src/gpsdrawdataviewer.cpp:55-58 | only the port changes |
| RawViewer.GpsdRawDataViewer.SetFormat | src/gpsdrawdataviewer.cpp:60-68 | the format is stored; None disconnects; any other mode connects only when the host is non-empty and the port non-zero; otherwise the connection is untouched |
| RawViewer.GpsdRawDataViewer.ConnectToServer | src/gpsdrawdataviewer.cpp:70-81 | the selector is enabled iff asked to connect with a host and a non-zero port; it then connects in the current format unless that is None; otherwise it disconnects |
| RawViewer.GpsdRawDataViewer.DisconnectFromServer | src/gpsdrawdataviewer.cpp:83-86 | the connection is dropped as disconnectFromServer() does |
| RawViewer.GpsdRawDataViewer.SwitchFormat | src/gpsdrawdataviewer.cpp:139-147 | index -1 only resets the selector to 0: format and connection are unchanged; any other index sets the format read from that entry, and then disconnects for None, reconnects in that mode when host and port are known, and otherwise leaves the connection untouched |
| RawViewer.ShowNmeaLines | src/gpsdrawdataviewer.cpp:104-110 | the NMEA loop leaves exactly `NmeaShown(text, lines)` |
| RawViewer.ShowHexLines | src/gpsdrawdataviewer.cpp:114-128 | the hex loop leaves exactly `HexShown(text, lines)` |
| RawViewer.GpsdRawDataViewer.UpdateData | src/gpsdrawdataviewer.cpp:88-137 | the new text is `Shown(old text, format, exposed buffer)` |
| RawViewer.GpsdRawDataViewer.Receive | src/gpsdrawdataviewer.cpp:47 | the connection ends in `Handled(r)`, the same state handleInput() leaves; host, port and format are unchanged; the view runs updateData() on the new buffer iff the read was accepted and announces dataUpdated (DEVICEID, MODE or SATELLITE set), and otherwise keeps its text |
| RawViewer.SplitHexScenario | src/gpsdrawdataviewer.cpp:47-137 | given host "localhost" and port 2947, the viewer connects in hex mode; two reads carrying MODE with "0a1b" then "2c3d" emit connectionStatus(true), then dataReceived and dataUpdated twice; the connection stays up and the view shows "0a 1b 2c 3d " |
| RawViewer.FailedReceiveScenario | src/gpsd.cpp:115-121 | a viewer connected in hex mode that gets a failed read with errno 5 is disconnected, has emitted connectionStatus(true), connectionStatus(false), connectionError(5), and its view stays empty |
| QualityWidget.Code | gpswidget.cpp:95-128 | every button stands for a GGA quality code in 0..8 |
| QualityWidget.QualityFor | gpswidget.cpp:95-131 | a code in 0..8 selects the button of that code; any other code selects Invalid |
| QualityWidget.QualityForCode | gpswidget.cpp:95-131 | a button is selected by its own code, plus every out-of-range code for Invalid, and by no other code |
| QualityWidget.OutOfRangeIsInvalid | gpswidget.cpp:129-131 | an out-of-range code selects what code 0 selects, Invalid |
| QualityWidget.ButtonsDistinct | gpswidget.cpp:48-56 | the nine buttons have distinct codes and captions |
| QualityWidget.VisibleBounds | gpswidget.cpp:85-90 | the list passed on is no longer than the input and has no PRN −1 |
| QualityWidget.VisibleMembership | gpswidget.cpp:85-90 | a satellite is passed on iff it was given and its PRN is not −1 |
| QualityWidget.VisibleAppend | gpswidget.cpp:85-90 | filtering commutes with concatenation: input order and fields are kept |
| QualityWidget.VisibleSingle | gpswidget.cpp:87-88 | one satellite passes unless it is the sentinel |
| QualityWidget.GpsWidget.constructor | gpswidget.cpp:42-80 | Invalid is the checked button after construction |
| QualityWidget.GpsWidget.UpdateSatlist | gpswidget.cpp:82-91 | the sky view receives exactly `Visible(sats)` |
| QualityWidget.GpsWidget.UpdateSatStatus | gpswidget.cpp:93-134 | the one checked button is `QualityFor(code)` |
| MainWindow.ComboBox.constructor | src/qtgpsc.cpp:30 | the selector the form creates is empty and has nothing selected |
| MainWindow.ComboBox.FindText | src/qtgpsc.cpp:190 | the first index holding the text, or -1 iff it is absent |
| MainWindow.ComboBox.AddItem | src/qtgpsc.cpp:193 | appends; the first item added to an empty selector becomes current |
| MainWindow.ComboBox.RemoveItem | src/qtgpsc.cpp:312-313 | removes one item; the selection follows it, and an emptied selector selects nothing |
| MainWindow.ComboBox.SetCurrentIndex | src/qtgpsc.cpp:319 | an index in range becomes current, any other selects nothing |
| MainWindow.LastIndex | src/qtgpsc.cpp:315-321 | the last position of the text with none after it, or -1 iff absent |
| MainWindow.RefillStep | src/qtgpsc.cpp:315-321 | adding one path selects it when it matches, selects entry 0 when the selector was empty, and otherwise keeps the selection |
| MainWindow.DeviceSelectionSpec | src/qtgpsc.cpp:312-328 | updateDeviceList selects the last path equal to a set watched device; entry 0 when no device is watched, or none matches, and the list is non-empty; nothing iff the list is empty |
| MainWindow.WarnsAsWrittenOnlyWhenEmpty | src/qtgpsc.cpp:329-332 | the vanished-device test as written fires iff a device is watched and the daemon lists no device at all |
| MainWindow.WarnsAsWrittenMissesVanishedDevice | src/qtgpsc.cpp:329-332 | watching /dev/ttyUSB0 with only /dev/ttyUSB1 listed, the device is gone but no message fires |
| MainWindow.WarnsSpec | src/qtgpsc.cpp:329-332 | the corrected test fires iff a device is watched and the selection cannot land on it |
| MainWindow.UsedPrns | src/qtgpsc.cpp:288-290 | the used list has at most the library's slots |
| MainWindow.UsedPrnsShowAsUsed | src/qtgpsc.cpp:288-298 | every used PRN that is visible has an entry marked used |
| MainWindow.NoneUsed | src/qtgpsc.cpp:288-298 | with no used satellites, no entry is marked used |
| MainWindow.BuildSatList | src/qtgpsc.cpp:283-301 | one entry per visible index, in order; PRN, azimuth, elevation and SNR from the same index; used iff the PRN is in used[0..satellites_used); healthy |
| MainWindow.ModeTextSpec | src/qtgpsc.cpp:340-355 | the four known modes have distinct captions; "Unknown mode" iff the mode is outside 0..3 |
| MainWindow.QtGpsc.constructor | src/qtgpsc.cpp:27-70 | the window starts from the host and port it is given (what readSettings() restores), with an empty device list, the Connect caption, no status message and a disconnected client |
| MainWindow.QtGpsc.SetDevice | src/qtgpsc.cpp:187-196 | a listed path is selected and the list is unchanged; otherwise the path is appended and selected; the selector ends on the first item equal to the path and grows by at most one |
| MainWindow.QtGpsc.HandleConnection | src/qtgpsc.cpp:198-219 | connecting needs a non-empty host and a non-zero port; it then connects in JSON mode, the button stays checked only if the connection came up, and settingsChanged fires once; without host or port the button is unchecked and nothing is opened; disconnecting closes an open connection and restores the Connect caption |
| MainWindow.QtGpsc.HandleError | src/qtgpsc.cpp:373-379 | error 0 changes nothing; any other is shown as "GPSD connection error: " and the library's description |
| MainWindow.QtGpsc.UpdateConstellation | src/qtgpsc.cpp:283-305 | both views receive a list satisfying `IsConstellation` for the exposed record |
| MainWindow.QtGpsc.RefillDevices | src/qtgpsc.cpp:312-321 | after the clear and refill loops the list is exactly the daemon's paths, in order, selected as `RefillSelection` |
| MainWindow.QtGpsc.UpdateDeviceListAsWritten | src/qtgpsc.cpp:307-334 | as written: the list is the paths, the selection is `DeviceSelection`, and the message appears iff `WarnsAsWritten` |
| MainWindow.QtGpsc.UpdateDeviceList | src/qtgpsc.cpp:307-334 | corrected: same list and selection; the vanished-device message appears iff a device is watched and no path names it |
| MainWindow.VanishedDeviceScenario | src/qtgpsc.cpp:307-334 | on a connected client with /dev/ttyUSB0 watched and only /dev/ttyUSB1 listed, the as-written routine selects /dev/ttyUSB1 silently; the corrected one shows the message |

## Left out

- The libgps calls `gps_open`, `gps_read`, `gps_stream`, `gps_close` and `gps_errstr` are foreign code:
  - their outcomes are parameters;
  - `gps_close` is modelled as marking the descriptor -1;
  - a failed `gps_open` is taken to leave a descriptor of 0 or below.
- `QSocketNotifier` and the event loop appear only as the `notifier` flag, which is kept equal to "descriptor open".
- Signal and slot wiring is not modelled, apart from the viewer's `dataUpdated` to `updateData` connection, which `RawViewer.GpsdRawDataViewer.Receive` models. That leaves out the connect button's `toggled` signal re-entering `handleConnection`, and `connectionStatus` driving the button. Each other slot is a method that the caller invokes.
- The unit conversions, the position tab, the status-bar text for driver and satellite counts, and the window title are left out. They are floating-point and number formatting.
- The destructor's disconnect is left out.
- The program never sets the client's watched device: `QtGpsc::setDevice` (src/qtgpsc.cpp:187-196) changes only the selector, and nothing else calls `Gpsd::setDevice`. So `getDevice()` is always empty and the vanished-device branch of `updateDeviceList` (src/qtgpsc.cpp:324-332) is not reached as the program is wired. MainWindow.VanishedDeviceScenario sets the device on the client directly to exercise that branch; the finding below is about the branch's test, not about behaviour a user sees today.
- The test `gpsd.flag(DEVICEID_SET) || true` in `QtGpsc::updateData` (src/qtgpsc.cpp:338) is left out: it is always true.
- Settings persistence, the clipboard, file saving, text wrapping and the about box are left out.
- RawViewer.GpsdRawDataViewer.UpdateData: the hex branch inserts at the end of the text. The source moves a copy of the cursor to the end, so the real insertion point is the widget's cursor; this model assumes it is at the end.
- RawViewer.GpsdRawDataViewer.UpdateData: the text widget's conversion of carriage returns and paragraph separators into newlines is not modelled. Nor is the scroll-to-bottom.
- RawViewer.GpsdRawDataViewer.SwitchFormat: the choice in the selector comes from the user before `activated` fires, so `formatIndex` changes only on index -1.
- RawText.IsSpace follows Qt 4's `QChar::isSpace` for the characters it lists. Unicode tables beyond those are not consulted.
- RawText.HexLineIsHexPairs reads the regular expression as a grammar. The regex engine itself is not modelled.
- QualityWidget.GpsWidget: the exclusive button group is modelled as one field holding the checked button.
- QualityWidget.GpsWidget.UpdateSatStatus: the other GGA fields it receives are ignored, as in the source.
- MainWindow.ComboBox models the QComboBox behaviour the code relies on:
  - the first item added to an empty box becomes current;
  - removals move or clear the selection;
  - an out-of-range index selects nothing.
- MainWindow.QtGpsc.UpdateConstellation requires the library's bounds: no more used or visible satellites than the arrays hold. Angles are converted from integers to reals without other rounding.
- The numeric values of the *_SET constants come from gps.h, which is not part of this model. `GpsTypes.Index` gives each flag the client names a bit position of its own, so the constants are distinct single bits; the mask's other bits are not modelled.
- GpsTypes.EmptyData: the constructor (src/gpsd.cpp:33-46) sets the descriptor to 0, empties the device path and zeroes the other `dev` fields, which the model does not hold. It leaves the `set` mask, the mode, the counts, the satellite arrays and the buffer uninitialised; the model takes the mask as the empty set and the rest as zero or empty.
- The 16-bit port is a range-limited integer, `Port`. No wrap-around is modelled, because the values only pass through.

## Findings

| source | as written | input that shows it | evidently intended | confidence | as-written member | corrected member |
|---|---|---|---|---|---|---|
| src/qtgpsc.cpp:329-332 | the "Previously selected device %1 has disappeared!" message is shown when `currentIndex() == -1`; the first path added to the emptied box is selected automatically, so this fires only when the daemon lists no device | watched device "/dev/ttyUSB0", daemon lists ["/dev/ttyUSB1"]: no message, and /dev/ttyUSB1 is selected | show the message whenever a device is watched and no listed path names it | medium, not executed | MainWindow.QtGpsc.UpdateDeviceListAsWritten, MainWindow.WarnsAsWrittenMissesVanishedDevice | MainWindow.QtGpsc.UpdateDeviceList |
