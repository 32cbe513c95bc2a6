/** The grading outcome shared by both evaluators and the answer route. */
module Verdicts {
  import opened Wrappers

  /** `"PASS" | "PROBE" | "REMEDIATE" | "FAIL"`, in ascending severity. */
  datatype ResultCode = PASS | PROBE | REMEDIATE | FAIL

  /** The string the code is written as in replies, columns and responses. */
  function Name(r: ResultCode): string {
    match r
    case PASS => "PASS"
    case PROBE => "PROBE"
    case REMEDIATE => "REMEDIATE"
    case FAIL => "FAIL"
  }

  /** The code a string names, if it names one. */
  function FromName(s: string): (r: Option<ResultCode>)
    ensures r.Some? <==> s == "PASS" || s == "PROBE" || s == "REMEDIATE" || s == "FAIL"
    ensures r.Some? ==> Name(r.value) == s
  {
    if s == "PASS" then Some(PASS)
    else if s == "PROBE" then Some(PROBE)
    else if s == "REMEDIATE" then Some(REMEDIATE)
    else if s == "FAIL" then Some(FAIL)
    else None
  }

  /** Position in the severity order PASS < PROBE < REMEDIATE < FAIL. */
  function Severity(r: ResultCode): nat {
    match r
    case PASS => 0
    case PROBE => 1
    case REMEDIATE => 2
    case FAIL => 3
  }
}
