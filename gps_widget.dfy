/** gpsWidget (gpswidget.cpp): a sky view fed with the satellites actually
    seen, and an exclusive group of radio buttons showing the fix quality
    of the last GGA sentence. */
module QualityWidget {
  import opened GpsTypes

  /** The nine buttons, in the order of the GGA quality codes 0 to 8. */
  datatype FixQuality =
    | Invalid | GpsFix | DgpsFix | PpsFix | RtkFix | FloatRtk
    | DeadReckoning | ManualInput | Simulation

  /** The GGA quality code a button stands for. */
  function Code(q: FixQuality): (c: int)
    ensures 0 <= c <= 8
  {
    match q
    case Invalid => 0
    case GpsFix => 1
    case DgpsFix => 2
    case PpsFix => 3
    case RtkFix => 4
    case FloatRtk => 5
    case DeadReckoning => 6
    case ManualInput => 7
    case Simulation => 8
  }

  /** The button captions. */
  function Label(q: FixQuality): string {
    match q
    case Invalid => "Invalid"
    case GpsFix => "GPS Fix"
    case DgpsFix => "DGPS fix"
    case PpsFix => "PPS fix"
    case RtkFix => "RTK fix"
    case FloatRtk => "Float RTK"
    case DeadReckoning => "Dead reckoning"
    case ManualInput => "Manual input"
    case Simulation => "Simulation"
  }

  /** The button updateSatStatus() checks for a quality code: the code's own
      button for 0 to 8, Invalid for anything else. */
  function QualityFor(code: int): (q: FixQuality)
    ensures 0 <= code <= 8 ==> Code(q) == code
    ensures !(0 <= code <= 8) ==> q == Invalid
  {
    if code == 1 then GpsFix
    else if code == 2 then DgpsFix
    else if code == 3 then PpsFix
    else if code == 4 then RtkFix
    else if code == 5 then FloatRtk
    else if code == 6 then DeadReckoning
    else if code == 7 then ManualInput
    else if code == 8 then Simulation
    else Invalid
  }

  /** Every button is reachable, by its own code and by no other. */
  lemma QualityForCode(q: FixQuality, code: int)
    ensures QualityFor(code) == q <==> code == Code(q) || (q == Invalid && !(0 <= code <= 8))
  {
  }

  /** An out-of-range code selects what code 0 selects. */
  lemma OutOfRangeIsInvalid(code: int)
    requires code < 0 || code > 8
    ensures QualityFor(code) == QualityFor(0) == Invalid
  {
  }

  /** No two buttons share a code or a caption. */
  lemma ButtonsDistinct(p: FixQuality, q: FixQuality)
    requires p != q
    ensures Code(p) != Code(q) && Label(p) != Label(q)
  {
  }

  /** The satellites that updateSatlist() passes on: PRN -1 marks an empty
      slot and is dropped, the rest keep their order and their fields. */
  function Visible(sats: seq<Satellite>): seq<Satellite>
    decreases |sats|
  {
    if |sats| == 0 then []
    else Visible(sats[..|sats| - 1]) + (if sats[|sats| - 1].prn != -1 then [sats[|sats| - 1]] else [])
  }

  /** No empty slot is passed on, and nothing is added. */
  lemma {:induction false} VisibleBounds(sats: seq<Satellite>)
    ensures |Visible(sats)| <= |sats|
    ensures forall k :: 0 <= k < |Visible(sats)| ==> Visible(sats)[k].prn != -1
    decreases |sats|
  {
    if |sats| > 0 {
      VisibleBounds(sats[..|sats| - 1]);
    }
  }

  /** A satellite is passed on exactly when it was given and is not an
      empty slot. */
  lemma {:induction false} VisibleMembership(sats: seq<Satellite>, s: Satellite)
    ensures s in Visible(sats) <==> s in sats && s.prn != -1
    decreases |sats|
  {
    if |sats| > 0 {
      var init := sats[..|sats| - 1];
      VisibleMembership(init, s);
      assert sats == init + [sats[|sats| - 1]];
    }
  }

  /** Filtering commutes with concatenation, so the order is the input's. */
  lemma {:induction false} VisibleAppend(a: seq<Satellite>, b: seq<Satellite>)
    ensures Visible(a + b) == Visible(a) + Visible(b)
    decreases |b|
  {
    if |b| == 0 {
      assert a + b == a;
    } else {
      var last := b[|b| - 1];
      var tail := if last.prn != -1 then [last] else [];
      assert (a + b)[..|a + b| - 1] == a + b[..|b| - 1];
      VisibleAppend(a, b[..|b| - 1]);
      assert Visible(a + b) == Visible(a) + Visible(b[..|b| - 1]) + tail;
    }
  }

  /** One satellite is passed on unless it is an empty slot. */
  lemma VisibleSingle(s: Satellite)
    ensures Visible([s]) == if s.prn != -1 then [s] else []
  {
    assert [s][..0] == [];
  }

  class GpsWidget {
    /** The button checked in the exclusive group: one at a time. */
    var checked: FixQuality
    /** The satellites last handed to the sky view. */
    var shown: seq<Satellite>

    /** drawGPSGui() ends with the Invalid button checked. */
    constructor ()
      ensures checked == Invalid && shown == []
    {
      checked := Invalid;
      shown := [];
    }

    /** updateSatlist(): collect the non-empty slots and hand them on. */
    method UpdateSatlist(sats: seq<Satellite>)
      modifies this`shown
      ensures shown == Visible(sats)
    {
      var seen: seq<Satellite> := [];
      var i := 0;
      while i < |sats|
        invariant 0 <= i <= |sats|
        invariant seen == Visible(sats[..i])
      {
        if sats[i].prn != -1 {
          seen := seen + [sats[i]];
        }
        VisibleAppend(sats[..i], [sats[i]]);
        VisibleSingle(sats[i]);
        assert sats[..i + 1] == sats[..i] + [sats[i]];
        i := i + 1;
      }
      assert sats[..i] == sats;
      shown := seen;
    }

    /** updateSatStatus(): check the button of the GGA quality code. */
    method UpdateSatStatus(gpsQuality: int)
      modifies this`checked
      ensures checked == QualityFor(gpsQuality)
    {
      match gpsQuality {
        case 0 => checked := Invalid;
        case 1 => checked := GpsFix;
        case 2 => checked := DgpsFix;
        case 3 => checked := PpsFix;
        case 4 => checked := RtkFix;
        case 5 => checked := FloatRtk;
        case 6 => checked := DeadReckoning;
        case 7 => checked := ManualInput;
        case 8 => checked := Simulation;
        case _ => checked := Invalid;
      }
    }
  }
}
