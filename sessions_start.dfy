/**
 * `app/api/sessions/start/route.ts` without the store: which modes are accepted and
 * the row a new session starts from.
 */
module SessionsStart {
  import opened Wrappers
  import opened Records

  /** `isMode`, returning the mode it recognises; a missing or non-string `mode` is None. */
  function ModeFromName(v: Option<string>): (m: Option<Mode>)
    ensures m.Some? <==> v == Some("PPL") || v == Some("IR") || v == Some("CPL")
    ensures m.Some? ==> ModeName(m.value) == v.value
  {
    if v == Some("PPL") then Some(PPL)
    else if v == Some("IR") then Some(IR)
    else if v == Some("CPL") then Some(CPL)
    else None
  }

  /** Every mode is recognised by its own name. */
  lemma ModeNameRoundTrip(m: Mode)
    ensures ModeFromName(Some(ModeName(m))) == Some(m)
  {
  }

  /** The probe limit a new session gets. */
  const InitialMaxProbes: int := 2

  /** The row `INSERT INTO sessions` creates: active, owned by the caller, probe counter
      0 of 2, an empty recent list, and nothing served or graded yet. */
  function NewSession(id: string, mode: Mode): (s: Session)
    ensures SessionInvariant(s)
  {
    Session(id, DemoUser, mode, Active, IdArray([]), 0, InitialMaxProbes, None, None, None, None, None)
  }
}
