/** QtGpsc (src/qtgpsc.cpp): the main window's list logic. It covers the
    device selector, the satellite list built from the exposed record, the
    fix-mode caption, the connect button and the status-bar messages. */
module MainWindow {
  import opened GpsTypes
  import opened Client

  // ---------------------------------------------------------------------
  // The device selector

  /** A QComboBox holding plain text items: the items and the current index,
      -1 when nothing is selected. */
  class ComboBox {
    var items: seq<string>
    var current: int

    ghost predicate Valid()
      reads this
    {
      -1 <= current < |items|
    }

    constructor ()
      ensures Valid() && items == [] && current == -1
    {
      items := [];
      current := -1;
    }

    function Count(): (n: nat)
      reads this
      ensures n == |items|
    {
      |items|
    }

    /** findText(): the first item equal to `t`, or -1 when there is none. */
    method FindText(t: string) returns (idx: int)
      ensures idx == -1 <==> t !in items
      ensures idx != -1 ==> 0 <= idx < |items| && items[idx] == t
      ensures forall k :: 0 <= k < idx ==> items[k] != t
    {
      idx := 0;
      while idx < |items|
        invariant 0 <= idx <= |items|
        invariant forall k :: 0 <= k < idx ==> items[k] != t
      {
        if items[idx] == t {
          return;
        }
        idx := idx + 1;
      }
      idx := -1;
    }

    /** addItem(): append; an item added to an empty box becomes current. */
    method AddItem(t: string)
      requires Valid()
      modifies this
      ensures Valid()
      ensures items == old(items) + [t]
      ensures current == if old(|items|) == 0 then 0 else old(current)
    {
      if |items| == 0 {
        current := 0;
      }
      items := items + [t];
    }

    /** removeItem(i): an earlier item moves the selection back by one; the
        current item hands it to the item now at its place, or to the new
        last one; an empty box selects nothing. */
    method RemoveItem(i: int)
      requires Valid()
      modifies this
      ensures Valid()
      ensures !(0 <= i < old(|items|)) ==> items == old(items) && current == old(current)
      ensures 0 <= i < old(|items|) ==>
        && items == old(items[..i] + items[i + 1..])
        && current == (if old(current) > i then old(current) - 1
                       else if old(current) == i then (if i < |items| then i else |items| - 1)
                       else old(current))
    {
      if 0 <= i < |items| {
        items := items[..i] + items[i + 1..];
        if current > i {
          current := current - 1;
        } else if current == i && i >= |items| {
          current := |items| - 1;
        }
      }
    }

    /** setCurrentIndex(): an index outside the box selects nothing. */
    method SetCurrentIndex(i: int)
      requires Valid()
      modifies this`current
      ensures Valid()
      ensures current == if 0 <= i < |items| then i else -1
    {
      current := if 0 <= i < |items| then i else -1;
    }
  }

  /** The last position of `x` in `s`, -1 when it does not occur. */
  function LastIndex(s: seq<string>, x: string): (r: int)
    ensures -1 <= r < |s|
    ensures r == -1 <==> x !in s
    ensures r != -1 ==> s[r] == x
    ensures forall k :: r < k < |s| ==> s[k] != x
    decreases |s|
  {
    if |s| == 0 then -1
    else if s[|s| - 1] == x then |s| - 1
    else
      assert s == s[..|s| - 1] + [s[|s| - 1]];
      LastIndex(s[..|s| - 1], x)
  }

  /** The selection while the device paths are re-added: the last match of
      the watched device, else the first item, which the box selected by
      itself when it stopped being empty. */
  function RefillSelection(paths: seq<string>, device: string): int {
    if LastIndex(paths, device) != -1 then LastIndex(paths, device)
    else if |paths| > 0 then 0
    else -1
  }

  /** The index updateDeviceList() leaves selected. */
  function DeviceSelection(paths: seq<string>, device: string): int {
    if device == "" then (if |paths| > 0 then 0 else -1)
    else RefillSelection(paths, device)
  }

  /** The selection after updateDeviceList(): the last path equal to a set
      watched device, the first item when no device is watched or none
      matches, and nothing only when the daemon lists no device. */
  lemma DeviceSelectionSpec(paths: seq<string>, device: string)
    ensures var sel := DeviceSelection(paths, device);
      && -1 <= sel < |paths|
      && (sel == -1 <==> |paths| == 0)
      && (device != "" && device in paths ==>
            paths[sel] == device && forall k :: sel < k < |paths| ==> paths[k] != device)
      && (device == "" && |paths| > 0 ==> sel == 0)
      && (device != "" && device !in paths && |paths| > 0 ==> sel == 0)
  {
  }

  /** Adding one path while refilling the selector. */
  lemma RefillStep(paths: seq<string>, p: string, device: string)
    ensures RefillSelection(paths + [p], device) ==
      if p == device then |paths|
      else if |paths| == 0 then 0
      else RefillSelection(paths, device)
  {
    var ps := paths + [p];
    assert ps[..|ps| - 1] == paths;
  }

  const DisappearedPrefix := "Previously selected device "
  const DisappearedSuffix := " has disappeared!"

  /** The status message for a watched device that is gone. */
  function DisappearedMessage(device: string): string {
    DisappearedPrefix + device + DisappearedSuffix
  }

  /** The test updateDeviceList() uses for a vanished device: a watched
      device and no item selected. */
  predicate WarnsAsWritten(paths: seq<string>, device: string) {
    device != "" && DeviceSelection(paths, device) == -1
  }

  /** A vanished device: one is watched and no path names it. */
  predicate Warns(paths: seq<string>, device: string) {
    device != "" && device !in paths
  }

  /** Since the box selects its first item by itself, the test as written
      fires only when the daemon lists no device at all. */
  lemma WarnsAsWrittenOnlyWhenEmpty(paths: seq<string>, device: string)
    ensures WarnsAsWritten(paths, device) <==> device != "" && |paths| == 0
  {
    DeviceSelectionSpec(paths, device);
  }

  /** Watching /dev/ttyUSB0 while the daemon lists only /dev/ttyUSB1: the
      device is gone, yet the test as written stays quiet. */
  lemma WarnsAsWrittenMissesVanishedDevice()
    ensures Warns(["/dev/ttyUSB1"], "/dev/ttyUSB0")
    ensures !WarnsAsWritten(["/dev/ttyUSB1"], "/dev/ttyUSB0")
  {
    WarnsAsWrittenOnlyWhenEmpty(["/dev/ttyUSB1"], "/dev/ttyUSB0");
  }

  /** The corrected test fires exactly when the watched device is set and
      the selection could not land on it. */
  lemma WarnsSpec(paths: seq<string>, device: string)
    ensures Warns(paths, device) <==>
      device != "" && (DeviceSelection(paths, device) == -1 || paths[DeviceSelection(paths, device)] != device)
  {
    DeviceSelectionSpec(paths, device);
  }

  // ---------------------------------------------------------------------
  // The satellite list

  /** used[0..satellites_used), the PRNs used in the fix. */
  function UsedPrns(d: GpsData): (r: seq<int>)
    ensures |r| <= |d.used|
  {
    if d.satellitesUsed <= 0 then []
    else if d.satellitesUsed >= |d.used| then d.used
    else d.used[..d.satellitesUsed]
  }

  /** The number of used satellites, none when the count is negative. */
  function UsedCount(d: GpsData): nat {
    if d.satellitesUsed <= 0 then 0 else d.satellitesUsed
  }

  /** The number of visible satellites, none when the count is negative. */
  function VisibleCount(d: GpsData): nat {
    if d.satellitesVisible <= 0 then 0 else d.satellitesVisible
  }

  /** The list updateConstellation() hands to both views: one entry per
      visible index, in order, with that index's PRN, azimuth, elevation and
      signal strength, marked used exactly when its PRN is in the used list,
      and healthy. */
  ghost predicate IsConstellation(d: GpsData, sats: seq<Satellite>)
    requires d.Valid()
  {
    && |sats| == VisibleCount(d)
    && forall n :: 0 <= n < |sats| ==>
         && sats[n].prn == d.prn[n]
         && sats[n].azm == d.azimuth[n] as real
         && sats[n].ele == d.elevation[n] as real
         && sats[n].snr == d.ss[n]
         && (sats[n].used <==> d.prn[n] in UsedPrns(d))
         && sats[n].healthy
  }

  /** Every PRN of the used list that is also visible shows up as used. */
  lemma UsedPrnsShowAsUsed(d: GpsData, sats: seq<Satellite>, p: int)
    requires d.Valid() && IsConstellation(d, sats)
    requires p in UsedPrns(d) && p in d.prn[..VisibleCount(d)]
    ensures exists n :: 0 <= n < |sats| && sats[n].prn == p && sats[n].used
  {
    var n :| 0 <= n < VisibleCount(d) && d.prn[..VisibleCount(d)][n] == p;
    assert sats[n].prn == p && sats[n].used;
  }

  /** An empty used list marks no entry as used. */
  lemma NoneUsed(d: GpsData, sats: seq<Satellite>)
    requires d.Valid() && IsConstellation(d, sats)
    requires d.satellitesUsed <= 0
    ensures forall n :: 0 <= n < |sats| ==> !sats[n].used
  {
  }

  /** updateConstellation()'s two loops: collect the used PRNs, then build
      one entry per visible satellite. */
  method BuildSatList(d: GpsData) returns (sats: seq<Satellite>)
    requires d.Valid()
    ensures IsConstellation(d, sats)
  {
    var visible: seq<int> := [];
    var n := 0;
    while n < d.satellitesUsed
      invariant 0 <= n <= |d.used|
      invariant n <= UsedCount(d)
      invariant visible == d.used[..n]
    {
      visible := visible + [d.used[n]];
      assert d.used[..n + 1] == d.used[..n] + [d.used[n]];
      n := n + 1;
    }
    assert d.used[..|d.used|] == d.used;

    sats := [];
    n := 0;
    while n < d.satellitesVisible
      invariant 0 <= n <= VisibleCount(d)
      invariant |sats| == n
      invariant forall k :: 0 <= k < n ==>
         && sats[k].prn == d.prn[k]
         && sats[k].azm == d.azimuth[k] as real
         && sats[k].ele == d.elevation[k] as real
         && sats[k].snr == d.ss[k]
         && (sats[k].used <==> d.prn[k] in visible)
         && sats[k].healthy
    {
      sats := sats + [Satellite(d.prn[n], d.azimuth[n] as real, d.elevation[n] as real, d.ss[n],
                                d.prn[n] in visible, true)];
      n := n + 1;
    }
  }

  // ---------------------------------------------------------------------
  // Captions and messages

  /** The fix-mode caption of the status bar. */
  function ModeText(mode: int): string {
    if mode == MODE_NOT_SEEN then "No data"
    else if mode == MODE_NO_FIX then "No fix"
    else if mode == MODE_2D then "2D fix"
    else if mode == MODE_3D then "3D fix"
    else "Unknown mode"
  }

  /** Each known mode has its own caption; every other value reads
      "Unknown mode". */
  lemma ModeTextSpec(m: int, k: int)
    ensures ModeText(m) == "Unknown mode" <==> !(MODE_NOT_SEEN <= m <= MODE_3D)
    ensures MODE_NOT_SEEN <= m <= MODE_3D && MODE_NOT_SEEN <= k <= MODE_3D && m != k ==>
      ModeText(m) != ModeText(k)
  {
  }

  const ErrorPrefix := "GPSD connection error: "

  // ---------------------------------------------------------------------
  // The window

  class QtGpsc {
    /** ui.host->text() and ui.port->value(). */
    var hostText: string
    var portValue: Port
    /** The device selector. */
    const device: ComboBox
    /** The connect button's checked state and caption. */
    var connectChecked: bool
    var connectLabel: string
    /** The last status-bar message. */
    var status: string
    /** The list last handed to the sky view and the satellite table. */
    var satellites: seq<Satellite>
    /** How many times settingsChanged() was emitted. */
    var settingsChanged: nat
    const gpsd: Gpsd

    ghost predicate Valid()
      reads this, device, gpsd
    {
      device.Valid() && gpsd.Valid()
    }

    constructor (host: string, port: Port)
      ensures Valid() && fresh(device) && fresh(gpsd)
      ensures hostText == host && portValue == port
      ensures device.items == [] && device.current == -1
      ensures !connectChecked && connectLabel == "Connect" && status == ""
      ensures satellites == [] && settingsChanged == 0
      ensures !gpsd.IsConnected() && gpsd.device == ""
    {
      hostText := host;
      portValue := port;
      device := new ComboBox();
      connectChecked := false;
      connectLabel := "Connect";
      status := "";
      satellites := [];
      settingsChanged := 0;
      gpsd := new Gpsd();
    }

    /** setDevice(d): select the item `d` if listed, else append it and
        select it; the selector ends on `d` and grows by at most one. */
    method SetDevice(d: string)
      requires Valid()
      modifies device
      ensures Valid()
      ensures d in old(device.items) ==> device.items == old(device.items)
      ensures d !in old(device.items) ==> device.items == old(device.items) + [d]
      ensures 0 <= device.current < |device.items| && device.items[device.current] == d
      ensures forall k :: 0 <= k < device.current ==> device.items[k] != d
    {
      var idx := device.FindText(d);
      if idx != -1 {
        device.SetCurrentIndex(idx);
      } else {
        device.AddItem(d);
        device.SetCurrentIndex(device.Count() - 1);
      }
    }

    /** handleConnection(conn): connecting needs a host and a non-zero port
        and leaves the button checked only if the connection came up;
        disconnecting closes an open connection. */
    method HandleConnection(conn: bool, open: OpenResult)
      requires Valid()
      modifies this, gpsd
      ensures Valid()
      ensures hostText == old(hostText) && portValue == old(portValue)
      ensures status == old(status) && satellites == old(satellites)
      ensures conn && hostText != "" && portValue != 0 ==>
        && gpsd.Connected(hostText, portValue, Json, open)
        && connectChecked == (old(connectChecked) && open.Opened?)
        && connectLabel == (if open.Opened? then "Disc&onnect" else "Connecting...")
        && settingsChanged == old(settingsChanged) + 1
      ensures conn && !(hostText != "" && portValue != 0) ==>
        && unchanged(gpsd)
        && !connectChecked && connectLabel == old(connectLabel)
        && settingsChanged == old(settingsChanged)
      ensures !conn ==>
        && gpsd.Disconnected()
        && connectChecked == old(connectChecked) && connectLabel == "Connect"
        && settingsChanged == old(settingsChanged)
    {
      if conn {
        if hostText != "" && portValue != 0 {
          connectLabel := "Connecting...";
          gpsd.ConnectToServer(hostText, portValue, Json, open);
          if gpsd.IsConnected() {
            connectLabel := "Disc&onnect";
          } else {
            connectChecked := false;
          }
          settingsChanged := settingsChanged + 1;
        } else {
          connectChecked := false;
        }
      } else {
        if gpsd.IsConnected() {
          gpsd.DisconnectFromServer();
        }
        connectLabel := "Connect";
      }
    }

    /** handleError(e): a non-zero error is reported with the library's
        description of it, `errstr`. */
    method HandleError(e: int, errstr: string)
      modifies this`status
      ensures status == if e == 0 then old(status) else ErrorPrefix + errstr
    {
      if e == 0 {
        return;
      }
      status := ErrorPrefix + errstr;
    }

    /** updateConstellation(): both views receive the list built from the
        exposed record. */
    method UpdateConstellation()
      requires gpsd.gpsdataExt.Valid()
      modifies this`satellites
      ensures IsConstellation(gpsd.gpsdataExt, satellites)
    {
      satellites := BuildSatList(gpsd.Data());
    }

    /** The two loops of updateDeviceList(): empty the selector, then add the
        daemon's paths and select each one equal to the watched device. */
    method RefillDevices()
      requires Valid()
      modifies device
      ensures Valid()
      ensures device.items == gpsd.gpsdataExt.devices
      ensures device.current == RefillSelection(gpsd.gpsdataExt.devices, gpsd.device)
    {
      while device.Count() > 0
        invariant device.Valid()
        decreases |device.items|
      {
        device.RemoveItem(0);
      }
      var paths := gpsd.Data().devices;
      var i := 0;
      while i < |paths|
        invariant 0 <= i <= |paths|
        invariant device.Valid()
        invariant device.items == paths[..i]
        invariant device.current == RefillSelection(paths[..i], gpsd.device)
      {
        RefillStep(paths[..i], paths[i], gpsd.device);
        assert paths[..i + 1] == paths[..i] + [paths[i]];
        device.AddItem(paths[i]);
        if gpsd.device == paths[i] {
          device.SetCurrentIndex(device.Count() - 1);
        }
        i := i + 1;
      }
      assert paths[..i] == paths;
    }

    /** updateDeviceList() as written: refill, settle the selection, and
        report a vanished device when nothing is selected. */
    method UpdateDeviceListAsWritten()
      requires Valid()
      modifies this`status, device
      ensures Valid()
      ensures device.items == gpsd.gpsdataExt.devices
      ensures device.current == DeviceSelection(gpsd.gpsdataExt.devices, gpsd.device)
      ensures status == if WarnsAsWritten(gpsd.gpsdataExt.devices, gpsd.device)
                        then DisappearedMessage(gpsd.device) else old(status)
    {
      RefillDevices();
      if gpsd.device == "" {
        if device.Count() > 0 {
          device.SetCurrentIndex(0);
        }
      } else {
        if device.current == -1 {
          status := DisappearedMessage(gpsd.device);
        }
      }
    }

    /** updateDeviceList() with the vanished-device test made on the paths
        themselves: the message appears exactly when a watched device is
        set and no path names it. */
    method UpdateDeviceList()
      requires Valid()
      modifies this`status, device
      ensures Valid()
      ensures device.items == gpsd.gpsdataExt.devices
      ensures device.current == DeviceSelection(gpsd.gpsdataExt.devices, gpsd.device)
      ensures status == if Warns(gpsd.gpsdataExt.devices, gpsd.device)
                        then DisappearedMessage(gpsd.device) else old(status)
    {
      RefillDevices();
      if gpsd.device == "" {
        if device.Count() > 0 {
          device.SetCurrentIndex(0);
        }
      } else {
        var idx := device.FindText(gpsd.device);
        if idx == -1 {
          status := DisappearedMessage(gpsd.device);
        }
      }
    }
  }

  /** Scenario: the connected window watches /dev/ttyUSB0 and the daemon now lists
      only /dev/ttyUSB1. As written, the selector falls on /dev/ttyUSB1 and
      no message appears; with the corrected test the message appears. */
  method VanishedDeviceScenario() returns (asWritten: string, corrected: string, selected: string)
    ensures asWritten == ""
    ensures corrected == DisappearedMessage("/dev/ttyUSB0")
    ensures selected == "/dev/ttyUSB1"
  {
    var w := new QtGpsc("localhost", 2947);
    w.gpsd.SetDevice("/dev/ttyUSB0");
    w.gpsd.ConnectToServer("localhost", 2947, Json, Opened(3));
    var d := EmptyData().(flags := {DeviceListSet}, devPath := "/dev/ttyUSB0", devices := ["/dev/ttyUSB1"]);
    w.gpsd.HandleInput(ReadResult(0, d, 0));
    w.UpdateDeviceListAsWritten();
    WarnsAsWrittenMissesVanishedDevice();
    asWritten := w.status;
    selected := w.device.items[w.device.current];
    w.UpdateDeviceList();
    corrected := w.status;
  }
}
