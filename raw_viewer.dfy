/** GpsdRawDataViewer (src/gpsdrawdataviewer.cpp): a pane that keeps its own
    Gpsd connection in one of the raw watch modes and appends what arrives
    to a plain-text view, reformatted for the mode. */
module RawViewer {
  import opened GpsTypes
  import opened RawText
  import opened Client

  // ---------------------------------------------------------------------
  // What updateData() does to the shown text

  /** QPlainTextEdit::appendPlainText(): the text becomes a new paragraph,
      which on an empty view is the first one. */
  function AppendPlainText(text: string, s: string): string {
    if text == "" then s else text + "\n" + s
  }

  /** The NMEA branch over the split lines: each trimmed line that has the
      sentence shape is appended as a paragraph, the others are dropped. */
  function NmeaShown(text: string, lines: seq<string>): string
    decreases |lines|
  {
    if |lines| == 0 then text
    else
      var line := Trim(lines[0]);
      NmeaShown(if IsNmeaSentence(line) then AppendPlainText(text, line) else text, lines[1..])
  }

  /** The hex branch over the split lines: each trimmed hex line is
      regrouped from the column the shown text ends at, and inserted. */
  function HexShown(text: string, lines: seq<string>): string
    decreases |lines|
  {
    if |lines| == 0 then text
    else
      var line := Trim(lines[0]);
      HexShown(if IsHexLine(line) then text + Regrouped(line, Column(text)) else text, lines[1..])
  }

  /** The view's text after updateData() with `buffer` in mode `format`. */
  function Shown(text: string, format: StreamMode, buffer: string): string {
    match format
    case Json => AppendPlainText(text, buffer)
    case Nmea => NmeaShown(text, Split(buffer))
    case Hex => HexShown(text, Split(buffer))
    case _ => text
  }

  /** The lines the NMEA branch keeps, trimmed, in order. */
  function Sentences(lines: seq<string>): (r: seq<string>)
    ensures |r| <= |lines|
    ensures forall k :: 0 <= k < |r| ==> IsNmeaSentence(r[k])
    decreases |lines|
  {
    if |lines| == 0 then []
    else
      var line := Trim(lines[0]);
      (if IsNmeaSentence(line) then [line] else []) + Sentences(lines[1..])
  }

  /** A line trims to `x` exactly when the first one does or a later one does. */
  lemma TrimmedInCons(lines: seq<string>, x: string)
    requires |lines| > 0
    ensures (exists i :: 0 <= i < |lines| && Trim(lines[i]) == x) <==>
      Trim(lines[0]) == x || exists i :: 0 <= i < |lines[1..]| && Trim(lines[1..][i]) == x
  {
    if exists i :: 0 <= i < |lines| && Trim(lines[i]) == x {
      var i :| 0 <= i < |lines| && Trim(lines[i]) == x;
      if i > 0 {
        assert Trim(lines[1..][i - 1]) == x;
      }
    }
    if exists i :: 0 <= i < |lines[1..]| && Trim(lines[1..][i]) == x {
      var i :| 0 <= i < |lines[1..]| && Trim(lines[1..][i]) == x;
      assert Trim(lines[i + 1]) == x;
    }
  }

  /** A kept sentence is exactly a trimmed input line of the sentence shape. */
  lemma {:induction false} SentencesMembership(lines: seq<string>, x: string)
    ensures x in Sentences(lines) <==>
      IsNmeaSentence(x) && exists i :: 0 <= i < |lines| && Trim(lines[i]) == x
    decreases |lines|
  {
    if |lines| > 0 {
      var line := Trim(lines[0]);
      var h := if IsNmeaSentence(line) then [line] else [];
      SentencesMembership(lines[1..], x);
      TrimmedInCons(lines, x);
      assert Sentences(lines) == h + Sentences(lines[1..]);
      assert x in Sentences(lines) <==> x in h || x in Sentences(lines[1..]);
    }
  }

  /** The filter on a first line and the rest. */
  lemma SentencesCons(x: string, rest: seq<string>)
    ensures Sentences([x] + rest) ==
      (if IsNmeaSentence(Trim(x)) then [Trim(x)] else []) + Sentences(rest)
  {
    assert ([x] + rest)[0] == x && ([x] + rest)[1..] == rest;
  }

  /** Filtering commutes with concatenation: order across buffers is kept. */
  lemma {:induction false} SentencesAppend(a: seq<string>, b: seq<string>)
    ensures Sentences(a + b) == Sentences(a) + Sentences(b)
    decreases |a|
  {
    if |a| == 0 {
      assert a + b == b;
    } else {
      var h := if IsNmeaSentence(Trim(a[0])) then [Trim(a[0])] else [];
      assert a == [a[0]] + a[1..];
      assert a + b == [a[0]] + (a[1..] + b);
      SentencesCons(a[0], a[1..] + b);
      SentencesCons(a[0], a[1..]);
      SentencesAppend(a[1..], b);
      SeqAssoc(h, Sentences(a[1..]), Sentences(b));
    }
  }

  /** `ks` appended one by one as paragraphs. */
  function AppendLines(text: string, ks: seq<string>): string {
    if |ks| == 0 then text
    else if text == "" then Join(ks)
    else text + "\n" + Join(ks)
  }

  lemma AppendLinesCons(text: string, x: string, ks: seq<string>)
    requires x != ""
    ensures AppendLines(AppendPlainText(text, x), ks) == AppendLines(text, [x] + ks)
  {
    if |ks| > 0 {
      assert ([x] + ks)[1..] == ks;
      assert Join([x] + ks) == x + "\n" + Join(ks);
    }
  }

  /** The NMEA branch shows the kept sentences, in order, one per paragraph,
      after the text already there. */
  lemma {:induction false} NmeaShownLines(text: string, lines: seq<string>)
    ensures NmeaShown(text, lines) == AppendLines(text, Sentences(lines))
    decreases |lines|
  {
    if |lines| > 0 {
      var line := Trim(lines[0]);
      if IsNmeaSentence(line) {
        NmeaShownLines(AppendPlainText(text, line), lines[1..]);
        AppendLinesCons(text, line, Sentences(lines[1..]));
      } else {
        NmeaShownLines(text, lines[1..]);
        assert Sentences(lines) == [] + Sentences(lines[1..]);
        assert [] + Sentences(lines[1..]) == Sentences(lines[1..]);
      }
    }
  }

  /** A buffer of trimmed sentences comes out unchanged, one per paragraph. */
  lemma NmeaPassThrough(text: string, lines: seq<string>)
    requires |lines| >= 1
    requires forall i :: 0 <= i < |lines| ==>
      '\n' !in lines[i] && Trim(lines[i]) == lines[i] && IsNmeaSentence(lines[i])
    ensures Shown(text, Nmea, Join(lines)) == AppendLines(text, lines)
  {
    SplitJoin(lines);
    NmeaShownLines(text, lines);
    SentencesOfSentences(lines);
  }

  /** Filtering lines that all pass keeps them all. */
  lemma {:induction false} SentencesOfSentences(lines: seq<string>)
    requires forall i :: 0 <= i < |lines| ==> Trim(lines[i]) == lines[i] && IsNmeaSentence(lines[i])
    ensures Sentences(lines) == lines
    decreases |lines|
  {
    if |lines| > 0 {
      SentencesOfSentences(lines[1..]);
      assert lines == [lines[0]] + lines[1..];
    }
  }

  /** The JSON branch appends the buffer verbatim as a paragraph. */
  lemma JsonVerbatim(text: string, buffer: string)
    ensures var r := Shown(text, Json, buffer);
      && r[..|text|] == text
      && r[|r| - |buffer|..] == buffer
      && |r| == |text| + |buffer| + (if text == "" then 0 else 1)
      && (text != "" ==> r[|text|] == '\n')
  {
  }

  /** The other modes leave the view as it was. */
  lemma OtherModesShowNothing(text: string, format: StreamMode, buffer: string)
    requires format == None || format == Raw
    ensures Shown(text, format, buffer) == text
  {
  }

  /** Regrouped hex lines keep the last row in the shape the column counter
      relies on, so that every later update recovers the right column. */
  lemma {:induction false} HexShownKeepsShape(text: string, lines: seq<string>)
    requires RowShape(text)
    ensures RowShape(HexShown(text, lines))
    decreases |lines|
  {
    if |lines| > 0 {
      var line := Trim(lines[0]);
      if IsHexLine(line) {
        HexLinePlain(line);
        ColumnRange(text);
        RegroupedShape(text, line, Column(text));
        HexShownKeepsShape(text + Regrouped(line, Column(text)), lines[1..]);
      } else {
        HexShownKeepsShape(text, lines[1..]);
      }
    }
  }

  /** The empty view has the row shape. */
  lemma EmptyRowShape()
    ensures RowShape("") && Column("") == 0
  {
  }

  /** One hex line shown whole. */
  lemma HexShownLine(text: string, line: string)
    requires IsHexLine(line)
    ensures Shown(text, Hex, line) == text + Regrouped(line, Column(text))
  {
    HexLinePlain(line);
    SplitSingle(line);
    var shown := text + Regrouped(line, Column(text));
    assert [line][0] == line && [line][1..] == [];
    assert HexShown(text, [line]) == HexShown(shown, []);
  }

  /** Hex output does not depend on how bytes are cut into updates: showing
      a and then b gives the same text as showing a + b at once. */
  lemma HexContinues(text: string, a: string, b: string)
    requires RowShape(text)
    requires IsHexLine(a) && IsHexLine(b)
    ensures Shown(Shown(text, Hex, a), Hex, b) == Shown(text, Hex, a + b)
  {
    var ab := a + b;
    assert IsHexLine(ab) by {
      assert forall i :: 0 <= i < |ab| ==> ab[i] == if i < |a| then a[i] else b[i - |a|];
    }
    HexShownLine(text, a);
    HexShownLine(text + Regrouped(a, Column(text)), b);
    HexShownLine(text, ab);
    HexLinePlain(a);
    Continuation(text, a, b);
  }

  /** "0a1b2c3d" on an empty view: four tokens on one row. */
  lemma HexSample(line: string)
    requires line == "0a1b2c3d"
    ensures Shown("", Hex, line) == "0a 1b 2c 3d "
  {
    assert IsHexLine(line);
    HexShownLine("", line);
    EmptyRowShape();
    RegroupedSample(line);
  }

  // ---------------------------------------------------------------------
  // The viewer

  /** The entries of the format selector, by index. */
  const Formats: seq<StreamMode> := [None, Json, Nmea, Hex]
  const FormatLabels: seq<string> := ["None", "JSON", "NMEA", "Raw"]

  /** itemData(idx).toInt() read back as a stream mode: an index outside
      the selector yields an invalid variant, which reads as 0, None. */
  function FormatAt(idx: int): (f: StreamMode)
    ensures 0 <= idx < |Formats| ==> f == Formats[idx]
    ensures !(0 <= idx < |Formats|) ==> f == None
  {
    if 0 <= idx < |Formats| then Formats[idx] else None
  }

  /** The selector offers every mode but Raw: a mode is some entry's
      format exactly when it is not Raw. */
  lemma FormatSelectable(f: StreamMode)
    ensures (exists i :: 0 <= i < |Formats| && FormatAt(i) == f) <==> f != Raw
  {
    match f
    case None => assert FormatAt(0) == f;
    case Json => assert FormatAt(1) == f;
    case Nmea => assert FormatAt(2) == f;
    case Hex => assert FormatAt(3) == f;
    case Raw =>
  }

  /** Each format but Raw has exactly one selector entry. */
  lemma FormatsDistinct()
    ensures forall i, j :: 0 <= i < j < |Formats| ==> Formats[i] != Formats[j]
    ensures Raw !in Formats
  {
  }

  class GpsdRawDataViewer {
    var host: string
    var port: Port
    var format: StreamMode
    /** The format selector's current index. */
    var formatIndex: int
    /** Whether the format selector is enabled. */
    var formatEnabled: bool
    /** The view's plain text. */
    var text: string
    /** The viewer's own connection. */
    const gpsd: Gpsd

    ghost predicate Valid()
      reads this, gpsd
    {
      gpsd.Valid()
    }

    constructor ()
      ensures Valid() && fresh(gpsd) && !gpsd.IsConnected() && gpsd.device == ""
      ensures gpsd.signals == []
      ensures host == "" && port == 0 && format == None
      ensures formatIndex == 0 && text == "" && RowShape(text)
    {
      host := "";
      port := 0;
      format := None;
      formatIndex := 0;
      formatEnabled := true;
      text := "";
      gpsd := new Gpsd();
    }

    method SetHost(h: string)
      modifies this
      ensures host == h
      ensures port == old(port) && format == old(format) && text == old(text)
      ensures formatIndex == old(formatIndex) && formatEnabled == old(formatEnabled)
    {
      host := h;
    }

    method SetPort(p: Port)
      modifies this
      ensures port == p
      ensures host == old(host) && format == old(format) && text == old(text)
      ensures formatIndex == old(formatIndex) && formatEnabled == old(formatEnabled)
    {
      port := p;
    }

    /** setFormat(): None disconnects; any other format reconnects in that
        mode, provided a host and a non-zero port are known. */
    method SetFormat(f: StreamMode, open: OpenResult)
      requires Valid()
      modifies this, gpsd
      ensures Valid()
      ensures format == f
      ensures host == old(host) && port == old(port) && text == old(text)
      ensures formatIndex == old(formatIndex) && formatEnabled == old(formatEnabled)
      ensures f == None ==> gpsd.Disconnected()
      ensures f != None && host != "" && port != 0 ==> gpsd.Connected(host, port, f, open)
      ensures f != None && !(host != "" && port != 0) ==> unchanged(gpsd)
    {
      format := f;
      if format == None {
        gpsd.DisconnectFromServer();
      } else if host != "" && port != 0 {
        gpsd.ConnectToServer(host, port, f, open);
      }
    }

    /** connectToServer(c): connecting needs a host and a non-zero port, and
        enables the selector; a connection is opened only in a chosen mode.
        Anything else disables the selector and disconnects. */
    method ConnectToServer(c: bool, open: OpenResult)
      requires Valid()
      modifies this, gpsd
      ensures Valid()
      ensures formatEnabled == (c && host != "" && port != 0)
      ensures host == old(host) && port == old(port) && format == old(format)
      ensures text == old(text) && formatIndex == old(formatIndex)
      ensures formatEnabled && format != None ==> gpsd.Connected(host, port, format, open)
      ensures formatEnabled && format == None ==> unchanged(gpsd)
      ensures !formatEnabled ==> gpsd.Disconnected()
    {
      if c && host != "" && port != 0 {
        formatEnabled := true;
        if format != None {
          gpsd.ConnectToServer(host, port, format, open);
        }
      } else {
        formatEnabled := false;
        gpsd.DisconnectFromServer();
      }
    }

    method DisconnectFromServer()
      requires Valid()
      modifies gpsd
      ensures Valid() && gpsd.Disconnected()
    {
      gpsd.DisconnectFromServer();
    }

    /** switchFormat(idx): no selection resets the selector to its first
        entry and changes nothing else; otherwise the entry's format is set. */
    method SwitchFormat(idx: int, open: OpenResult)
      requires Valid()
      modifies this, gpsd
      ensures Valid()
      ensures host == old(host) && port == old(port) && text == old(text)
      ensures formatEnabled == old(formatEnabled)
      ensures idx == -1 ==> formatIndex == 0 && format == old(format) && unchanged(gpsd)
      ensures idx != -1 ==> formatIndex == old(formatIndex) && format == FormatAt(idx)
      ensures idx != -1 && FormatAt(idx) == None ==> gpsd.Disconnected()
      ensures idx != -1 && FormatAt(idx) != None && host != "" && port != 0 ==>
        gpsd.Connected(host, port, FormatAt(idx), open)
      ensures idx != -1 && FormatAt(idx) != None && !(host != "" && port != 0) ==> unchanged(gpsd)
    {
      if idx == -1 {
        formatIndex := 0;
        return;
      }
      SetFormat(FormatAt(idx), open);
    }

    /** One read on the viewer's connection: the connection handles it, and
        when it announces "data updated" the view runs updateData(), as the
        viewer's constructor wires the two. */
    method Receive(r: ReadResult)
      requires Valid()
      modifies this`text, gpsd
      ensures Valid() && gpsd.Handled(r)
      ensures host == old(host) && port == old(port) && format == old(format)
      ensures text ==
        if r.code != -1 && Watches(gpsd.device, r.data.devPath) && r.data.flags * GenericFlags != {}
        then Shown(old(text), format, r.data.buffer)
        else old(text)
    {
      var n := |gpsd.signals|;
      gpsd.HandleInput(r);
      NotificationsMembers(r.data.flags);
      if DataUpdated in gpsd.signals[n..] {
        UpdateData();
      }
    }

    /** updateData(): the connection's last buffer is added to the view as
        the current mode calls for. */
    method UpdateData()
      modifies this`text
      ensures text == Shown(old(text), format, gpsd.gpsdataExt.buffer)
    {
      var buffer := gpsd.Data().buffer;
      match format {
        case Json =>
          text := AppendPlainText(text, buffer);
        case Nmea =>
          text := ShowNmeaLines(text, Split(buffer));
        case Hex =>
          text := ShowHexLines(text, Split(buffer));
        case _ =>
      }
    }
  }

  /** The NMEA loop of updateData(): append each trimmed sentence line. */
  method ShowNmeaLines(text0: string, lines: seq<string>) returns (text: string)
    ensures text == NmeaShown(text0, lines)
  {
    text := text0;
    var j := 0;
    while j < |lines|
      invariant 0 <= j <= |lines|
      invariant NmeaShown(text, lines[j..]) == NmeaShown(text0, lines)
    {
      assert lines[j..][1..] == lines[j + 1..];
      var line := Trim(lines[j]);
      if IsNmeaSentence(line) {
        text := AppendPlainText(text, line);
      }
      j := j + 1;
    }
  }

  /** The hex loop of updateData(): insert each trimmed hex line regrouped
      from the column the text ends at. */
  method ShowHexLines(text0: string, lines: seq<string>) returns (text: string)
    ensures text == HexShown(text0, lines)
  {
    text := text0;
    var j := 0;
    while j < |lines|
      invariant 0 <= j <= |lines|
      invariant HexShown(text, lines[j..]) == HexShown(text0, lines)
    {
      assert lines[j..][1..] == lines[j + 1..];
      var line := Trim(lines[j]);
      if IsHexLine(line) {
        var l := RegroupLine(text, line);
        text := text + l;
      }
      j := j + 1;
    }
  }

  /** The two halves of the sample are hex lines that join to it. */
  lemma SampleHalves(first: string, second: string)
    requires first == "0a1b" && second == "2c3d"
    ensures IsHexLine(first) && IsHexLine(second) && first + second == "0a1b2c3d"
  {
  }

  /** "0a1b" then "2c3d" on an empty view show what "0a1b2c3d" shows. */
  lemma SplitHexSample(first: string, second: string)
    requires first == "0a1b" && second == "2c3d"
    ensures Shown(Shown("", Hex, first), Hex, second) == "0a 1b 2c 3d "
  {
    SampleHalves(first, second);
    EmptyRowShape();
    HexContinues("", first, second);
    HexSample(first + second);
  }

  /** Scenario: a failed read on the viewer's connection drops it, reports
      the error, and leaves the view as it was. */
  method FailedReceiveScenario(data: GpsData) returns (connected: bool, emitted: seq<Signal>, shown: string)
    ensures !connected
    ensures emitted == [ConnectionStatus(true), ConnectionStatus(false), ConnectionError(5)]
    ensures shown == ""
  {
    var v := new GpsdRawDataViewer();
    v.SetHost("localhost");
    v.SetPort(2947);
    v.SetFormat(Hex, Opened(3));
    assert v.gpsd.signals == [ConnectionStatus(true)];
    v.Receive(ReadResult(-1, data, 5));
    connected := v.gpsd.IsConnected();
    emitted := v.gpsd.signals;
    shown := v.text;
  }

  /** The signals of a connection followed by two MODE reads. */
  lemma TwoUpdates(once: seq<Signal>, twice: seq<Signal>)
    requires once == [ConnectionStatus(true)] + [DataReceived, DataUpdated]
    requires twice == once + [DataReceived, DataUpdated]
    ensures twice == [ConnectionStatus(true), DataReceived, DataUpdated, DataReceived, DataUpdated]
  {
  }

  /** Scenario: a viewer given a host and a port connects in hex mode; each
      of two reads carries MODE, so the connection announces "data updated",
      on which the view runs updateData(), and the two payloads show as one
      run of tokens. */
  method SplitHexScenario(first: string, second: string)
    returns (connected: bool, emitted: seq<Signal>, shown: string)
    requires first == "0a1b" && second == "2c3d"
    ensures connected
    ensures emitted == [ConnectionStatus(true), DataReceived, DataUpdated, DataReceived, DataUpdated]
    ensures shown == "0a 1b 2c 3d "
  {
    var v := new GpsdRawDataViewer();
    v.SetHost("localhost");
    v.SetPort(2947);
    v.SetFormat(Hex, Opened(3));
    assert v.gpsd.signals == [ConnectionStatus(true)];
    ModeAloneNotify();
    v.Receive(ReadResult(0, EmptyData().(flags := {ModeSet}, buffer := first), 0));
    assert v.gpsd.signals == [ConnectionStatus(true)] + [DataReceived, DataUpdated];
    assert v.text == Shown("", Hex, first);
    var once := v.gpsd.signals;
    v.Receive(ReadResult(0, EmptyData().(flags := {ModeSet}, buffer := second), 0));
    TwoUpdates(once, v.gpsd.signals);
    SplitHexSample(first, second);
    connected := v.gpsd.IsConnected();
    emitted := v.gpsd.signals;
    shown := v.text;
  }
}
