/** PlayerIncidents.Get: the incident report of the PlayerCarMyIncidentCount
    bitfield and the penalty multiplier that the report type carries. */
module Incidents {
  import opened Wrappers
  import opened Memory

  // The report byte of IRacingPlayerIncidents
  const RepNoReport: int := 0
  const RepOutOfControl: int := 1
  const RepOffTrack: int := 2
  const RepOffTrackOngoing: int := 3
  const RepContactWithWorld: int := 4
  const RepCollisionWithWorld: int := 5
  const RepCollisionWithWorldOngoing: int := 6
  const RepContactWithCar: int := 7
  const RepCollisionWithCar: int := 8

  /** IRSKD_INCIDENT_REP_MASK. */
  const ReportMask: int := 0xFF

  /** `(uint)Value & IRSKD_INCIDENT_REP_MASK`: the mask keeps bits 0..7 of
      the unsigned value, which is its remainder modulo 256. */
  function ReportOf(value: int): (t: int)
    ensures 0 <= t <= ReportMask
  {
    (value % TwoTo32) % (ReportMask + 1)
  }

  /** The tuple Get returns: the incident type and the multiplier. */
  datatype Incident = Incident(report: int, penalty: int)

  /** Get: the report byte with the multiplier of its type; a report byte
      outside the enum throws ArgumentOutOfRangeException. The penalty
      byte is not consulted. */
  function Get(value: int): (r: Result<Incident>)
    ensures r.Ok? <==> ReportOf(value) <= RepCollisionWithCar
    ensures r.Err? ==> r.fault == ArgumentOutOfRange
    ensures r.Ok? ==> r.value.report == ReportOf(value) && r.value.penalty in {0, 1, 2, 4}
  {
    var t := ReportOf(value);
    if t == RepNoReport then Ok(Incident(t, 0))
    else if t == RepOutOfControl then Ok(Incident(t, 2))
    else if t == RepOffTrack || t == RepOffTrackOngoing then Ok(Incident(t, 1))
    else if t == RepContactWithWorld then Ok(Incident(t, 0))
    else if t == RepCollisionWithWorld || t == RepCollisionWithWorldOngoing then Ok(Incident(t, 2))
    else if t == RepContactWithCar then Ok(Incident(t, 0))
    else if t == RepCollisionWithCar then Ok(Incident(t, 4))
    else Err(ArgumentOutOfRange)
  }

  /** The report byte is the low byte of the raw int, sign included. */
  lemma ReportIsLowByte(value: int)
    ensures ReportOf(value) == value % 0x100
  {
    var u := value % TwoTo32;
    var k := (value / TwoTo32) * 0x100_0000;
    assert value == k * 0x100 + u;
    LowByteShift(k, u);
  }

  /** Adding whole multiples of 256 leaves the low byte alone. */
  lemma LowByteShift(k: int, b: int)
    ensures (k * 0x100 + b) % 0x100 == b % 0x100
  {
    var r := b % 0x100;
    assert k * 0x100 + b == (k + b / 0x100) * 0x100 + r;
  }

  /** Bits above the low byte, the penalty byte among them, do not change
      what Get returns. */
  lemma GetIgnoresHighBits(value: int, high: int)
    ensures Get(value + high * 0x100) == Get(value)
  {
    ReportIsLowByte(value);
    ReportIsLowByte(value + high * 0x100);
    LowByteShift(high, value);
  }

  /** A "not currently sent" ongoing report weighs the same as the report it
      continues, and contact without collision weighs nothing. */
  lemma OngoingReportsWeighTheSame(value: int)
    ensures ReportOf(value) == RepOffTrackOngoing ==>
              Get(value).value.penalty == Get(RepOffTrack).value.penalty
    ensures ReportOf(value) == RepCollisionWithWorldOngoing ==>
              Get(value).value.penalty == Get(RepCollisionWithWorld).value.penalty
    ensures ReportOf(value) in {RepContactWithWorld, RepContactWithCar} ==> Get(value).value.penalty == 0
  {
  }

  /** Car contact with a 2x penalty byte still reads as a 4x collision, and
      a report byte of 9 throws whatever the other bytes hold. */
  lemma GetExamples()
    ensures Get(0x0208) == Ok(Incident(RepCollisionWithCar, 4))
    ensures Get(-1) == Err(ArgumentOutOfRange)
    ensures Get(0x0309) == Err(ArgumentOutOfRange)
  {
  }
}
