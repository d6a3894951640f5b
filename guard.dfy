/** The admin gate in front of every admin endpoint (`require_admin`). */
module Guard {
  import opened Wrappers

  /** Decides a request from the configured admin code (the environment
      variable ADMIN_CODE, `None` when unset) and the request's
      `x-admin-code` header (`None` when the header is missing). */
  function RequireAdmin(adminCode: Option<string>, header: Option<string>): (r: Result<()>)
    ensures r.Ok? || r == Err(Forbidden)
    ensures !Truthy(adminCode) ==> r.Ok?
    ensures Truthy(adminCode) ==> (r.Ok? <==> header == adminCode)
  {
    if !Truthy(adminCode) then
      Ok(())  // dev mode: protection disabled
    else if header != adminCode then
      Err(Forbidden)
    else
      Ok(())
  }

  predicate Allowed(adminCode: Option<string>, header: Option<string>) {
    RequireAdmin(adminCode, header).Ok?
  }

  /** With a code configured, the request passes exactly when the header was
      sent and is the code, character for character. */
  lemma ConfiguredCodeNeedsExactHeader(adminCode: Option<string>, header: Option<string>)
    requires Truthy(adminCode)
    ensures Allowed(adminCode, header) <==> header.Some? && header.value == adminCode.value
    ensures header.None? ==> RequireAdmin(adminCode, header) == Err(Forbidden)
  {
  }

  /** With no code configured, or an empty one, every request passes,
      whatever its header. */
  lemma DevModeAllowsEveryRequest(adminCode: Option<string>, header: Option<string>)
    requires adminCode == None || adminCode == Some("")
    ensures Allowed(adminCode, header)
  {
  }
}
