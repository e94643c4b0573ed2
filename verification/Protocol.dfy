/** The identity an agent announces about itself (internal/protocol/protocol.go). */
module Protocol {
  import opened Basics
  import opened Text

  const MAX_AGENT_ID: nat := 128

  /** What an agent says about itself. */
  datatype Hello = Hello(agentId: Bytes, hostname: Bytes, os: Bytes, arch: Bytes, version: Bytes)

  function HelloFromHeaders(h: Hello): Option<Hello> {
    var id := TrimSpace(h.agentId);
    if id == [] || |id| > MAX_AGENT_ID then None
    else Some(Hello(id, TrimSpace(h.hostname), TrimSpace(h.os), TrimSpace(h.arch), TrimSpace(h.version)))
  }

  /** An announcement is fit when every field is trimmed and the id has 1 to MAX_AGENT_ID bytes. */
  predicate Fit(h: Hello) {
    && 0 < |h.agentId| <= MAX_AGENT_ID
    && TrimSpace(h.agentId) == h.agentId && TrimSpace(h.hostname) == h.hostname && TrimSpace(h.os) == h.os
    && TrimSpace(h.arch) == h.arch && TrimSpace(h.version) == h.version
  }

  /** What is read from headers is fit, and an announcement arrives as itself exactly when it is fit. */
  lemma HelloArrivesExactlyWhenFit(h: Hello)
    ensures match HelloFromHeaders(h)
            case None => TrimSpace(h.agentId) == [] || |TrimSpace(h.agentId)| > 128
            case Some(r) =>
              && Fit(r) && r.agentId == TrimSpace(h.agentId) && r.hostname == TrimSpace(h.hostname)
              && r.os == TrimSpace(h.os) && r.arch == TrimSpace(h.arch) && r.version == TrimSpace(h.version)
    ensures HelloFromHeaders(h) == Some(h) <==> Fit(h)
  {
    TrimmedIsTrimmed(h.agentId);
    TrimmedIsTrimmed(h.hostname);
    TrimmedIsTrimmed(h.os);
    TrimmedIsTrimmed(h.arch);
    TrimmedIsTrimmed(h.version);
  }
}
