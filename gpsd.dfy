/** The Gpsd wrapper (src/gpsd.cpp): the connection state machine and the
    read-dispatch step that publishes the live record and fans out signals.
    The libgps calls are not modelled; what they report is passed in. */
module Client {
  import opened GpsTypes

  /** The signals a Gpsd object emits, recorded in emission order. */
  datatype Signal =
    | DataReceived
    | PositionUpdated
    | ConstellationUpdated
    | DeviceListUpdated
    | DataUpdated
    | ConnectionStatus(connected: bool)
    | ConnectionError(err: int)

  /** A descriptor gps_open() hands back on success. */
  type OpenFd = fd: int | fd > 0 witness 1

  /** The descriptor gps_open() leaves behind when it fails. */
  type FailedFd = fd: int | fd <= 0 witness -1

  /** What one gps_open() call reports: success with a descriptor, or failure
      with the descriptor it left and the value errno then holds. */
  datatype OpenResult =
    | Opened(openFd: OpenFd)
    | OpenFailed(failedFd: FailedFd, errno: int)
  {
    /** The descriptor the call leaves in the live record. */
    function Fd(): int {
      if Opened? then openFd else failedFd
    }
  }

  /** What one gps_read() call reports: its return code, the record it leaves
      in the live copy (its descriptor aside), and errno afterwards. */
  datatype ReadResult = ReadResult(code: int, data: GpsData, errno: int)

  /** The bits that make a read a position update. */
  const PositionFlags: Mask := {LatLonSet, AltitudeSet, SpeedSet, TrackSet, ClimbSet}

  /** The bits that raise the narrow "data updated" signal. */
  const GenericFlags: Mask := {DeviceIdSet, ModeSet, SatelliteSet}

  /** The position of each data signal in the fixed emission order. */
  function Rank(s: Signal): nat {
    match s
    case DataReceived => 0
    case PositionUpdated => 1
    case ConstellationUpdated => 2
    case DeviceListUpdated => 3
    case DataUpdated => 4
    case ConnectionStatus(_) => 5
    case ConnectionError(_) => 6
  }

  /** The signals an accepted read with mask `m` emits. */
  function Notifications(m: Mask): seq<Signal>
  {
    [DataReceived]
    + (if m * PositionFlags != {} then [PositionUpdated] else [])
    + (if SatelliteSet in m then [ConstellationUpdated] else [])
    + (if DeviceListSet in m then [DeviceListUpdated] else [])
    + (if m * GenericFlags != {} then [DataUpdated] else [])
  }

  /** "Data received" comes first and only once. */
  lemma NotificationsFirst(m: Mask)
    ensures var r := Notifications(m);
      |r| >= 1 && r[0] == DataReceived && forall i :: 1 <= i < |r| ==> r[i] != DataReceived
  {
  }

  /** Each other data signal is raised exactly when its bits are set. */
  lemma NotificationsMembers(m: Mask)
    ensures var r := Notifications(m);
      && (PositionUpdated in r <==> m * PositionFlags != {})
      && (ConstellationUpdated in r <==> SatelliteSet in m)
      && (DeviceListUpdated in r <==> DeviceListSet in m)
      && (DataUpdated in r <==> m * GenericFlags != {})
  {
  }

  /** The signals come in the fixed order, and only data signals come. */
  lemma NotificationsOrder(m: Mask)
    ensures var r := Notifications(m);
      && (forall i, j :: 0 <= i < j < |r| ==> Rank(r[i]) < Rank(r[j]))
      && (forall i :: 0 <= i < |r| ==> Rank(r[i]) <= 4)
  {
  }

  /** What the fan-out promises: "data received" first and only once, each
      other data signal exactly when its bits are set, in the fixed order. */
  lemma NotificationsSpec(m: Mask)
    ensures var r := Notifications(m);
      && |r| >= 1 && r[0] == DataReceived
      && (forall i :: 1 <= i < |r| ==> r[i] != DataReceived)
      && (PositionUpdated in r <==> m * PositionFlags != {})
      && (ConstellationUpdated in r <==> SatelliteSet in m)
      && (DeviceListUpdated in r <==> DeviceListSet in m)
      && (DataUpdated in r <==> m * GenericFlags != {})
      && (forall i, j :: 0 <= i < j < |r| ==> Rank(r[i]) < Rank(r[j]))
      && (forall i :: 0 <= i < |r| ==> Rank(r[i]) <= 4)
  {
    NotificationsFirst(m);
    NotificationsMembers(m);
    NotificationsOrder(m);
  }

  /** The device filter: an empty watched device accepts every device. */
  predicate Watches(device: string, path: string) {
    device == "" || device == path
  }

  /** The three tests in handleInput() are the intersection with GenericFlags. */
  lemma GenericFlagsTest(m: Mask)
    ensures (DeviceIdSet in m || ModeSet in m || SatelliteSet in m) <==> m * GenericFlags != {}
  {
    if m * GenericFlags != {} {
      var b :| b in m * GenericFlags;
      assert b == DeviceIdSet || b == ModeSet || b == SatelliteSet;
    }
    assert DeviceIdSet in m ==> DeviceIdSet in m * GenericFlags;
    assert ModeSet in m ==> ModeSet in m * GenericFlags;
    assert SatelliteSet in m ==> SatelliteSet in m * GenericFlags;
  }

  /** A read that sets only LATLON and TIME raises "data received" and
      "position updated" and nothing else. */
  lemma LatLonAndTimeNotify()
    ensures Notifications({LatLonSet, TimeSet}) == [DataReceived, PositionUpdated]
  {
    assert {LatLonSet, TimeSet} * PositionFlags == {LatLonSet};
    assert {LatLonSet, TimeSet} * GenericFlags == {};
  }

  /** TIME alone is not a position update. */
  lemma TimeAloneNotify()
    ensures Notifications({TimeSet}) == [DataReceived]
  {
    assert {TimeSet} * PositionFlags == {};
    assert {TimeSet} * GenericFlags == {};
  }

  /** MODE alone is a generic update and no position update. */
  lemma ModeAloneNotify()
    ensures Notifications({ModeSet}) == [DataReceived, DataUpdated]
  {
    assert {ModeSet} * PositionFlags == {};
    assert {ModeSet} * GenericFlags == {ModeSet};
  }

  class Gpsd {
    var host: string
    var port: Port
    var device: string
    /** gpsdata: the live record the library writes into. */
    var gpsdata: GpsData
    /** gpsdata_ext: the copy exposed through gpsData(). */
    var gpsdataExt: GpsData
    /** Whether a socket notifier exists and is enabled. */
    var notifier: bool
    /** The mode last requested with gps_stream(). */
    var watch: StreamMode
    /** Every signal emitted so far, in order. */
    var signals: seq<Signal>

    /** A notifier exists exactly while the descriptor is open. */
    ghost predicate Valid()
      reads this
    {
      notifier == (gpsdata.fd > 0)
    }

    constructor ()
      ensures Valid() && !IsConnected()
      ensures gpsdata.fd == 0 && gpsdata.devPath == "" && gpsdataExt == gpsdata
      ensures host == "" && port == 0 && device == ""
      ensures signals == []
    {
      host := "";
      port := 0;
      device := "";
      gpsdata := EmptyData();
      gpsdataExt := gpsdata;
      notifier := false;
      watch := None;
      signals := [];
    }

    /** isConnected(): a descriptor of 0 or below counts as disconnected. */
    predicate IsConnected()
      reads this
    {
      gpsdata.fd > 0
    }

    /** gpsData(): the exposed record. */
    function Data(): GpsData
      reads this
    {
      gpsdataExt
    }

    /** flag(f): the exposed record's mask shares a bit with `f`. */
    predicate Flag(f: Mask)
      reads this
    {
      gpsdataExt.flags * f != {}
    }

    /** flag(f) is the source's integer test `(set & f) != 0` on the exposed
        record's mask; the live record plays no part. */
    lemma FlagBits(f: Mask)
      ensures Flag(f) <==> And(MaskBits(gpsdataExt.flags), MaskBits(f)) != 0
    {
      MaskTest(gpsdataExt.flags, f);
    }

    method SetDevice(d: string)
      modifies this
      ensures device == d
      ensures host == old(host) && port == old(port) && watch == old(watch)
      ensures gpsdata == old(gpsdata) && gpsdataExt == old(gpsdataExt)
      ensures notifier == old(notifier) && signals == old(signals)
    {
      device := d;
    }

    /** What disconnectFromServer() does: nothing when not connected;
        otherwise the descriptor is closed and connectionStatus(false) is
        emitted once. */
    twostate predicate Disconnected()
      reads this
    {
      && Valid() && !IsConnected()
      && gpsdata == (if old(IsConnected()) then old(gpsdata).(fd := -1) else old(gpsdata))
      && signals == old(signals) + (if old(IsConnected()) then [ConnectionStatus(false)] else [])
      && host == old(host) && port == old(port) && device == old(device)
      && gpsdataExt == old(gpsdataExt) && watch == old(watch)
    }

    /** What connectToServer(h, p, m) does when gps_open() reports `open`:
        an open connection is dropped first, host and port are stored either
        way, and the outcome is reported. */
    twostate predicate Connected(h: string, p: Port, m: StreamMode, open: OpenResult)
      reads this
    {
      && Valid()
      && (IsConnected() <==> open.Opened?)
      && host == h && port == p && device == old(device)
      && gpsdata == old(gpsdata).(fd := open.Fd())
      && gpsdataExt == old(gpsdataExt)
      && watch == (if open.Opened? then m else old(watch))
      && signals ==
        old(signals)
        + (if old(IsConnected()) then [ConnectionStatus(false)] else [])
        + (if open.Opened? then [ConnectionStatus(true)]
           else if open.errno != 0 then [ConnectionError(open.errno)]
           else [])
    }

    method DisconnectFromServer()
      requires Valid()
      modifies this
      ensures Disconnected()
    {
      if !IsConnected() {
        return;
      }
      // gps_close() closes the socket and marks the descriptor invalid
      gpsdata := gpsdata.(fd := -1);
      notifier := false;
      signals := signals + [ConnectionStatus(false)];
    }

    method ConnectToServer(h: string, p: Port, m: StreamMode, open: OpenResult)
      requires Valid()
      modifies this
      ensures Connected(h, p, m, open)
    {
      if IsConnected() {
        DisconnectFromServer();
      }
      host := h;
      port := p;
      gpsdata := gpsdata.(fd := open.Fd());
      match open
      case Opened(_) =>
        notifier := true;
        signals := signals + [ConnectionStatus(true)];
        watch := m;
      case OpenFailed(_, errno) =>
        if errno != 0 {
          signals := signals + [ConnectionError(errno)];
        }
    }

    /** The effect of handleInput() on one read: either a forced disconnect,
        a silent discard, or publication of the live record and the signal
        fan-out. Host, port, device and watch mode never change. */
    twostate predicate Handled(r: ReadResult)
      reads this
    {
      && host == old(host) && port == old(port) && device == old(device) && watch == old(watch)
      // a failed read: disconnect, then report the captured error
      && (r.code == -1 ==>
        && !IsConnected()
        && gpsdata == r.data.(fd := if old(IsConnected()) then -1 else old(gpsdata.fd))
        && gpsdataExt == old(gpsdataExt)
        && signals == old(signals)
                      + (if old(IsConnected()) then [ConnectionStatus(false)] else [])
                      + [ConnectionError(r.errno)])
      // a read from a device not watched: nothing observable changes
      && (r.code != -1 && !Watches(device, r.data.devPath) ==>
        && gpsdata == r.data.(fd := old(gpsdata.fd))
        && gpsdataExt == old(gpsdataExt)
        && signals == old(signals))
      // an accepted read: publish, then notify
      && (r.code != -1 && Watches(device, r.data.devPath) ==>
        && gpsdata == r.data.(fd := old(gpsdata.fd))
        && gpsdataExt == gpsdata
        && gpsdataExt.flags == r.data.flags
        && signals == old(signals) + Notifications(r.data.flags))
      && (r.code != -1 ==> IsConnected() == old(IsConnected()))
    }

    /** handleInput(): one read, handled as Handled describes. */
    method HandleInput(r: ReadResult)
      requires Valid()
      modifies this
      ensures Valid() && Handled(r)
    {
      // gps_read() overwrites the live record; the descriptor stays
      gpsdata := r.data.(fd := gpsdata.fd);
      if r.code == -1 {
        var e := r.errno;
        DisconnectFromServer();
        signals := signals + [ConnectionError(e)];
        return;
      }

      if device != "" && device != gpsdata.devPath {
        return;
      }

      gpsdataExt := gpsdata;
      EmitNotifications();
    }

    /** The signal fan-out of handleInput(), from the mask just published. */
    method EmitNotifications()
      modifies this`signals
      ensures signals == old(signals) + Notifications(gpsdataExt.flags)
    {
      signals := signals + [DataReceived];
      if gpsdataExt.flags * PositionFlags != {} {
        signals := signals + [PositionUpdated];
      }
      if SatelliteSet in gpsdataExt.flags {
        signals := signals + [ConstellationUpdated];
      }
      if DeviceListSet in gpsdataExt.flags {
        signals := signals + [DeviceListUpdated];
      }
      GenericFlagsTest(gpsdataExt.flags);
      if DeviceIdSet in gpsdataExt.flags || ModeSet in gpsdataExt.flags || SatelliteSet in gpsdataExt.flags {
        signals := signals + [DataUpdated];
      }
    }
  }

  /** Scenario: a failed read with error 5 on an open connection leaves the
      client disconnected, having emitted connectionStatus(false) and then
      connectionError(5). */
  method FailedReadScenario(data: GpsData) returns (connected: bool, emitted: seq<Signal>)
    ensures !connected
    ensures emitted == [ConnectionStatus(true), ConnectionStatus(false), ConnectionError(5)]
  {
    var g := new Gpsd();
    g.ConnectToServer("localhost", 2947, Json, Opened(3));
    g.HandleInput(ReadResult(-1, data, 5));
    connected, emitted := g.IsConnected(), g.signals;
  }

  /** Scenario: watching /dev/ttyUSB0, a read tagged /dev/ttyUSB1 fires
      nothing, keeps the connection and leaves the exposed record and its
      flags as they were. */
  method OtherDeviceScenario(data: GpsData) returns (connected: bool, emitted: seq<Signal>, exposedKept: bool)
    requires data.devPath == "/dev/ttyUSB1"
    ensures connected && exposedKept
    ensures emitted == [ConnectionStatus(true)]
  {
    var g := new Gpsd();
    g.SetDevice("/dev/ttyUSB0");
    g.ConnectToServer("localhost", 2947, Json, Opened(3));
    var exposed := g.gpsdataExt;
    var moded := g.Flag({ModeSet});
    g.HandleInput(ReadResult(0, data, 0));
    connected, emitted := g.IsConnected(), g.signals;
    exposedKept := g.gpsdataExt == exposed && g.Flag({ModeSet}) == moded;
  }

  /** Scenario: an accepted read setting LATLON and TIME publishes the record
      and raises "data received" then "position updated". */
  method AcceptedReadScenario(data: GpsData) returns (emitted: seq<Signal>, published: bool)
    requires data.flags == {LatLonSet, TimeSet}
    ensures published
    ensures emitted == [ConnectionStatus(true), DataReceived, PositionUpdated]
  {
    var g := new Gpsd();
    g.ConnectToServer("localhost", 2947, Json, Opened(3));
    g.HandleInput(ReadResult(0, data, 0));
    LatLonAndTimeNotify();
    emitted := g.signals;
    published := g.gpsdataExt == data.(fd := 3) && g.Flag({LatLonSet}) && !g.Flag({ModeSet});
    assert LatLonSet in g.gpsdataExt.flags * {LatLonSet};
  }
}
