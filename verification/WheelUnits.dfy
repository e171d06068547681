/** The wheel's dimensions in cycles, from microseconds and the clock frequency. */
module WheelUnits {
  import opened Messages
  import opened WheelSpec
  import opened WheelRuns
  import PacedSessions
  import Pacing

  const kMTU: pos                                  // The transport's packet size
  const kMinRate := 15000000.0                     // Bytes per second
  const kWheelSlotWidthUs := 0.5
  const kWheelHorizonUs: real := 1000000.0 * (kSessionCredits * kMTU) as real / kMinRate

  /** `us_to_cycles` */
  function UsToCycles(us: real, ghz: real): int { (us * 1000.0 * ghz).Floor }

  function Ceil(x: real): int { if x.Floor as real == x then x.Floor else x.Floor + 1 }

  const numWslots: int := 1 + Ceil(kWheelHorizonUs / kWheelSlotWidthUs)

  /** Whether the wheel of a machine with this clock covers its horizon. */
  predicate Covers(ghz: real) {
    UsToCycles(kWheelHorizonUs, ghz) <= (numWslots - 1) * UsToCycles(kWheelSlotWidthUs, ghz)
  }

  /** The horizon in fifteenths of a slot. */
  const fifteenths: nat := 2 * (kSessionCredits * kMTU)

  lemma {:induction false} HorizonSlots()
    ensures 15.0 * kWheelHorizonUs == fifteenths as real * kWheelSlotWidthUs
    ensures fifteenths <= 15 * (numWslots - 1) < fifteenths + 15
  {
    var bytes := (kSessionCredits * kMTU) as real;
    assert 15.0 * kWheelHorizonUs == bytes;
    assert fifteenths as real == 2.0 * bytes;
    var slots := kWheelHorizonUs / kWheelSlotWidthUs;
    assert 15.0 * slots == fifteenths as real;
    assert slots <= Ceil(slots) as real < slots + 1.0;
  }

  /** Rounding takes less off the slots than the wheel has to spare. A slot is 500 * ghz cycles before rounding. */
  predicate LosesLittle(ghz: real) {
    var slot := 500.0 * ghz;
    fifteenths as real * (slot - slot.Floor as real)
      < (15 * (numWslots - 1) - fifteenths) as real * slot.Floor as real + 15.0
  }

  /** The horizon is covered exactly then. */
  lemma {:induction false} CoversExactly(ghz: real)
    ensures Covers(ghz) <==> LosesLittle(ghz)
  {
    HorizonSlots();
    var slot, horizon := 500.0 * ghz, kWheelHorizonUs * 1000.0 * ghz;
    assert kWheelSlotWidthUs * 1000.0 * ghz == slot;
    Times(kWheelHorizonUs, fifteenths as real, kWheelSlotWidthUs, 1000.0 * ghz);
    FloorsCover(slot, horizon, numWslots - 1, fifteenths);
  }

  lemma {:induction false} FloorsCover(slot: real, horizon: real, n: int, u: nat)
    requires 15.0 * horizon == u as real * slot
    ensures horizon.Floor <= n * slot.Floor <==>
              u as real * (slot - slot.Floor as real) < (15 * n - u) as real * slot.Floor as real + 15.0
  {
    var f := slot.Floor;
    assert horizon.Floor <= n * f <==> horizon < (n * f) as real + 1.0;
    assert (n * f) as real == n as real * f as real;
    assert u as real * slot == u as real * f as real + u as real * (slot - f as real);
    assert (15 * n - u) as real * f as real == 15.0 * (n as real * f as real) - u as real * f as real;
  }

  lemma {:induction false} Times(h: real, u: real, w: real, c: real)
    requires 15.0 * h == u * w
    ensures 15.0 * (h * c) == u * (w * c)
  {
    assert 15.0 * (h * c) == (15.0 * h) * c;
    assert u * (w * c) == (u * w) * c;
  }

  /** So it is when a slot is a whole number of cycles. */
  lemma {:induction false} WholeSlotCovers(ghz: real)
    requires ghz >= 0.0 && (500.0 * ghz).Floor as real == 500.0 * ghz
    ensures Covers(ghz)
  {
    HorizonSlots();
    CoversExactly(ghz);
  }

  // The wheel of a machine

  /** The wheel has the dimensions that the source computes for this clock. */
  ghost predicate Rounded(ghz: real) {
    && kWheelNumWslots == numWslots
    && wslotWidthTsc == UsToCycles(kWheelSlotWidthUs, ghz)
    && horizonTsc == UsToCycles(kWheelHorizonUs, ghz)
  }

  /** Its inserts within the horizon never fail the slot assertion, in any run, exactly when little is lost. */
  lemma {:induction false} AssertExactly(ghz: real)
    requires Rounded(ghz)
    ensures SlotAssertHolds() <==> LosesLittle(ghz)
  {
    CoversExactly(ghz);
    HorizonFits();
  }

  // Pacing on such a wheel

  /** Cycles between two packets of the largest size at the lowest rate. */
  function Gap(ghz: real): real { 1000000.0 * kMTU as real / kMinRate * 1000.0 * ghz }

  /** The wheel and the largest gap that the source computes for this clock. */
  ghost predicate Paced(ghz: real) {
    Rounded(ghz) && ghz >= 0.0 && Pacing.maxGap == Gap(ghz).Floor
  }

  /** After rounding, the slots have room for one largest gap per credit. */
  predicate GapsFit(ghz: real) {
    kSessionCredits * Gap(ghz).Floor <= (numWslots - 1) * UsToCycles(kWheelSlotWidthUs, ghz)
  }

  /** The sessions of an Rpc never fail an assertion of `insert`, in any run, exactly when the gaps fit. The horizon
      always has room for them. */
  lemma {:induction false} PacingExactly(ghz: real)
    requires Paced(ghz)
    ensures PacedSessions.AllInsertsPass() <==> GapsFit(ghz)
    ensures Pacing.SendsAlwaysPass() <==> GapsFit(ghz)
  {
    hide PacedSessions.AllInsertsPass, Pacing.SendsAlwaysPass;
    HorizonGaps(ghz);
    GapPerCredit(Gap(ghz));
    PacedSessions.InsertsPassExactly();
    Pacing.PassExactly();
  }

  /** So it is when little is lost. */
  lemma {:induction false} LittleLossFits(ghz: real)
    requires ghz >= 0.0 && LosesLittle(ghz)
    ensures GapsFit(ghz)
  {
    hide LosesLittle;
    CoversExactly(ghz);
    HorizonGaps(ghz);
    GapPerCredit(Gap(ghz));
  }

  lemma {:induction false} Slots1024()
    requires kMTU == 1024 && kSessionCredits == 32
    ensures fifteenths == 65536 && numWslots == 4371
  {
    HorizonSlots();
  }

  /** With a clock of 2.1999 GHz and a packet size of 1024 bytes it is not so: one request of 32 packets on a new
      session, sent with the largest gaps just before the first slot falls due, fails an assertion. */
  lemma {:induction false} RoundingOverflows()
    requires Paced(2.1999) && kMTU == 1024 && kSessionCredits == 32
    ensures PacedSessions.Reached(PacedSessions.burstJoint)
    ensures PacedSessions.Possible(PacedSessions.burstJoint, PacedSessions.burstMove)
    ensures !PacedSessions.InsertsPass(PacedSessions.burstJoint.paced, 0, PacedSessions.largestGaps)
  {
    hide PacedSessions.Reached, PacedSessions.Possible, PacedSessions.InsertsPass;
    Slots1024();
    assert kWheelSlotWidthUs * 1000.0 * 2.1999 == 1099.95;
    assert (1099.95).Floor == 1099;
    GapFloor(2.1999, 150179);
    PacedSessions.BurstFails();
  }

  /** With a clock of 0.500108 GHz the slots do not cover the horizon, but they have room for all that pacing asks. */
  lemma {:induction false} RoundingSpares()
    requires Paced(0.500108) && kMTU == 1024 && kSessionCredits == 32
    ensures !SlotAssertHolds() && PacedSessions.AllInsertsPass()
  {
    hide PacedSessions.AllInsertsPass, SlotAssertHolds;
    Slots1024();
    assert kWheelSlotWidthUs * 1000.0 * 0.500108 == 250.054;
    assert (250.054).Floor == 250;
    assert 500.0 * 0.500108 == 250.054;
    GapFloor(0.500108, 34140);
    AssertExactly(0.500108);
    PacingExactly(0.500108);
  }

  lemma {:induction false} GapFloor(ghz: real, n: int)
    requires kMTU == 1024 && 15.0 * n as real <= 1024000.0 * ghz < 15.0 * (n + 1) as real
    ensures Gap(ghz).Floor == n
  {
    assert 15.0 * Gap(ghz) == 1024000.0 * ghz;
  }

  lemma {:induction false} HorizonGaps(ghz: real)
    ensures kWheelHorizonUs * 1000.0 * ghz == kSessionCredits as real * Gap(ghz)
  {
    var c := kSessionCredits as real;
    var us := 1000000.0 * kMTU as real / kMinRate;
    assert (kSessionCredits * kMTU) as real == c * kMTU as real;
    assert kWheelHorizonUs == c * us;
    assert c * us * 1000.0 * ghz == c * (us * 1000.0 * ghz);
  }

  lemma {:induction false} GapPerCredit(gap: real)
    requires gap >= 0.0
    ensures kSessionCredits * gap.Floor <= (kSessionCredits as real * gap).Floor
  {
    var c, f := kSessionCredits, gap.Floor;
    assert c as real * f as real <= c as real * gap;
    assert (c * f) as real == c as real * f as real;
  }
}
