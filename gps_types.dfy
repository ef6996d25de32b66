/** Types shared by the gpsd client: the daemon's "set" flags, the watch
    modes, the fix/status record (gps_data_t) and the satellite value type. */
module GpsTypes {

  /** The *_SET bits of the daemon's mask that the client names. Each one is a
      distinct bit, so a mask is modelled as the set of flags it holds; the
      lemmas below show that the integer test `(mask & f) != 0` is then the
      intersection of the two sets. */
  datatype Flag =
    | TimeSet | LatLonSet | AltitudeSet | SpeedSet | TrackSet | ClimbSet
    | ModeSet | DopSet | HerrSet | VerrSet | SatelliteSet | DeviceListSet
    | DeviceIdSet

  type Mask = set<Flag>

  /** Every flag, in the order of the bits they occupy: AllFlags[k] is bit k. */
  const AllFlags: seq<Flag> :=
    [TimeSet, LatLonSet, AltitudeSet, SpeedSet, TrackSet, ClimbSet, ModeSet,
     DopSet, HerrSet, VerrSet, SatelliteSet, DeviceListSet, DeviceIdSet]

  /** The position of a flag's bit in the mask. */
  function Index(f: Flag): (k: nat)
    ensures k < |AllFlags| && AllFlags[k] == f
  {
    match f
    case TimeSet => 0
    case LatLonSet => 1
    case AltitudeSet => 2
    case SpeedSet => 3
    case TrackSet => 4
    case ClimbSet => 5
    case ModeSet => 6
    case DopSet => 7
    case HerrSet => 8
    case VerrSet => 9
    case SatelliteSet => 10
    case DeviceListSet => 11
    case DeviceIdSet => 12
  }

  /** C's `&` on two unsigned masks: bit k of the result is set exactly when
      bit k is set in both. */
  function And(x: nat, y: nat): nat
    decreases x
  {
    if x == 0 || y == 0 then 0
    else (if x % 2 == 1 && y % 2 == 1 then 1 else 0) + 2 * And(x / 2, y / 2)
  }

  /** The integer value of the flags of `m` among AllFlags[k..], shifted down
      by k bits. */
  function MaskFrom(m: Mask, k: nat): nat
    requires k <= |AllFlags|
    decreases |AllFlags| - k
  {
    if k == |AllFlags| then 0
    else (if AllFlags[k] in m then 1 else 0) + 2 * MaskFrom(m, k + 1)
  }

  /** The integer mask holding the bits of a set of flags, as the library's
      `set` field and the *_SET arguments of flag() do. */
  function MaskBits(m: Mask): nat {
    MaskFrom(m, 0)
  }

  /** The *_SET constant of one flag. */
  function Bit(f: Flag): nat {
    MaskBits({f})
  }

  /** 2 to the power n. */
  function Pow2(n: nat): (p: nat)
    ensures p >= 1
  {
    if n == 0 then 1 else 2 * Pow2(n - 1)
  }

  /** AllFlags holds each flag once: position k is the index of its flag. */
  lemma IndexOfPosition(k: nat)
    requires k < |AllFlags|
    ensures Index(AllFlags[k]) == k
  {
  }

  /** The mask of a single flag, shifted down by k bits. */
  lemma {:induction false} SingleFrom(f: Flag, k: nat)
    requires k <= |AllFlags|
    ensures MaskFrom({f}, k) == if k <= Index(f) then Pow2(Index(f) - k) else 0
    decreases |AllFlags| - k
  {
    if k < |AllFlags| {
      SingleFrom(f, k + 1);
      IndexOfPosition(k);
    }
  }

  /** Each flag's constant is a single bit: 2 to the power of its position. */
  lemma BitIsPower(f: Flag)
    ensures Bit(f) == Pow2(Index(f))
  {
    SingleFrom(f, 0);
    var i := Index(f);
    assert Bit(f) == MaskFrom({f}, 0) == Pow2(i - 0);
  }

  /** One bit of the AND: the low bits combine and the rest shift down. */
  lemma AndStep(x: nat, y: nat)
    ensures And(x, y) == (if x % 2 == 1 && y % 2 == 1 then 1 else 0) + 2 * And(x / 2, y / 2)
  {
    if x == 0 {
      assert And(x / 2, y / 2) == 0;
    } else if y == 0 {
      assert And(x / 2, y / 2) == 0;
    }
  }

  /** The low bit of MaskFrom(m, k) is flag k; the rest is MaskFrom(m, k + 1). */
  lemma LowBit(m: Mask, k: nat)
    requires k < |AllFlags|
    ensures MaskFrom(m, k) % 2 == (if AllFlags[k] in m then 1 else 0)
    ensures MaskFrom(m, k) / 2 == MaskFrom(m, k + 1)
  {
  }

  /** The AND of two masks is the mask of the flags both hold. */
  lemma {:induction false} MaskFromMeet(a: Mask, b: Mask, k: nat)
    requires k <= |AllFlags|
    ensures And(MaskFrom(a, k), MaskFrom(b, k)) == MaskFrom(a * b, k)
    decreases |AllFlags| - k
  {
    if k < |AllFlags| {
      MaskFromMeet(a, b, k + 1);
      LowBit(a, k);
      LowBit(b, k);
      AndStep(MaskFrom(a, k), MaskFrom(b, k));
    }
  }

  /** A mask is zero exactly when none of its flags is set. */
  lemma {:induction false} MaskFromZero(m: Mask, k: nat)
    requires k <= |AllFlags|
    ensures MaskFrom(m, k) == 0 <==> forall j :: k <= j < |AllFlags| ==> AllFlags[j] !in m
    decreases |AllFlags| - k
  {
    if k < |AllFlags| {
      MaskFromZero(m, k + 1);
    }
  }

  /** The source's test `(a & b) != 0` on two masks holds exactly when the
      two sets of flags share a flag. */
  lemma MaskTest(a: Mask, b: Mask)
    ensures And(MaskBits(a), MaskBits(b)) != 0 <==> a * b != {}
  {
    MaskFromMeet(a, b, 0);
    MaskFromZero(a * b, 0);
    if a * b != {} {
      var f :| f in a * b;
      assert AllFlags[Index(f)] in a * b;
    }
  }

  /** A flag is in a set exactly when its bit is set in the set's mask. */
  lemma MaskBitsMember(m: Mask, f: Flag)
    ensures f in m <==> And(MaskBits(m), Bit(f)) != 0
  {
    MaskTest(m, {f});
    assert f in m <==> f in m * {f};
  }

  /** Masks are faithful to sets: two sets with the same mask are equal. */
  lemma MaskBitsInjective(a: Mask, b: Mask)
    requires MaskBits(a) == MaskBits(b)
    ensures a == b
  {
    forall f ensures f in a <==> f in b {
      MaskBitsMember(a, f);
      MaskBitsMember(b, f);
    }
  }

  /** Gpsd::StreamMode: the watch mode asked of the daemon. */
  datatype StreamMode = None | Json | Nmea | Hex | Raw

  /** A quint16 port number. */
  type Port = p: int | 0 <= p < 0x1_0000

  /** Fix modes reported in fix.mode. */
  const MODE_NOT_SEEN: int := 0
  const MODE_NO_FIX: int := 1
  const MODE_2D: int := 2
  const MODE_3D: int := 3

  /** A satellite as handed to the views: PRN -1 is the "no satellite" sentinel. */
  datatype Satellite = Satellite(prn: int, azm: real, ele: real, snr: real, used: bool, healthy: bool)

  /** The part of gps_data_t the client reads. The satellite arrays are the
      library's fixed-size parallel arrays; `devices` is devices.list[0..ndevices)
      reduced to the paths; `buffer` is the last raw payload. */
  datatype GpsData = GpsData(
    fd: int,                  // gps_fd
    flags: Mask,              // set
    devPath: string,          // dev.path
    mode: int,                // fix.mode
    satellitesUsed: int,      // satellites_used
    used: seq<int>,           // used[]
    satellitesVisible: int,   // satellites_visible
    prn: seq<int>,            // PRN[]
    azimuth: seq<int>,        // azimuth[]
    elevation: seq<int>,      // elevation[]
    ss: seq<real>,            // ss[]
    devices: seq<string>,     // devices.list[i].path
    buffer: string)           // buffer
  {
    /** The library never reports more satellites than its arrays hold, and
        the visible-satellite arrays run in parallel. */
    ghost predicate Valid() {
      && satellitesUsed <= |used|
      && satellitesVisible <= |prn|
      && |azimuth| == |prn| && |elevation| == |prn| && |ss| == |prn|
    }
  }

  /** The record a new Gpsd object starts from: descriptor 0 and an empty
      device path, as its constructor sets them; the fields the constructor
      leaves uninitialised (the `set` mask, the mode, the counts, the arrays
      and the buffer) are taken as empty or zero. */
  function EmptyData(): (d: GpsData)
    ensures d.fd == 0 && d.devPath == "" && d.flags == {}
  {
    GpsData(0, {}, "", MODE_NOT_SEEN, 0, [], 0, [], [], [], [], [], "")
  }
}
