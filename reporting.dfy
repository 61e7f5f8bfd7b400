/** The dashboard's attendance-rate figure. */
module Reporting {

  /**
   * Today's attendance as a percentage of the enrolled students, defined as
   * 0 when no student is enrolled. The one-decimal rounding is not modelled.
   */
  function AttendanceRate(totalStudents: nat, todayAttendance: nat): (rate: real)
    ensures totalStudents == 0 ==> rate == 0.0
    ensures totalStudents > 0 ==> rate * (totalStudents as real) == (todayAttendance as real) * 100.0
    ensures 0.0 <= rate
    ensures todayAttendance <= totalStudents ==> rate <= 100.0
  {
    if totalStudents > 0 then (todayAttendance as real / totalStudents as real) * 100.0 else 0.0
  }
}
