// Agent sessions of terminal surfaces (src/agent.rs).
module Agents {
  import opened Prelude

  datatype Provider = Claude | Codex | Gemini | Pi

  datatype AgentSession = AgentSession(provider: Provider, session: Option<string>, cwd: Option<string>)

  datatype CaptureResult = Captured | AlreadyCaptured | NotAgent

  function LowerChar(c: char): char {
    if 'A' <= c <= 'Z' then (c as int - 'A' as int + 'a' as int) as char else c
  }

  function AsciiLower(s: string): (r: string)
    ensures |r| == |s| && forall i :: 0 <= i < |s| ==> r[i] == LowerChar(s[i])
  {
    if s == [] then [] else [LowerChar(s[0])] + AsciiLower(s[1..])
  }

  function FromStr(s: string): Option<Provider> {
    var name := AsciiLower(s);
    if name == "claude" || name == "claude-code" then Some(Claude)
    else if name == "codex" then Some(Codex)
    else if name == "gemini" then Some(Gemini)
    else if name == "pi" then Some(Pi)
    else None
  }

  function AsStr(p: Provider): string {
    match p
    case Claude => "claude"
    case Codex => "codex"
    case Gemini => "gemini"
    case Pi => "pi"
  }

  /** The name a provider is saved under names it again. */
  lemma NameRoundTrip(p: Provider)
    ensures FromStr(AsStr(p)) == Some(p)
  {
    var name := AsStr(p);
    assert forall i :: 0 <= i < |name| ==> LowerChar(name[i]) == name[i];
    assert AsciiLower(name) == name;
  }

  /** A provider is named by its own name or, for Claude, by one other, in any case. */
  lemma FromStrIff(s: string, p: Provider)
    ensures FromStr(s) == Some(p) <==> AsciiLower(s) == AsStr(p) || (p == Claude && AsciiLower(s) == "claude-code")
  {
    assert forall a: Provider, b: Provider :: AsStr(a) == AsStr(b) ==> a == b by {
      assert AsStr(Claude)[1] == 'l' && AsStr(Codex)[1] == 'o' && AsStr(Gemini)[1] == 'e' && AsStr(Pi)[1] == 'i';
    }
    assert "claude-code"[6] == '-' && |"claude-code"| == 11;
  }

  /** `c` is the ASCII letter `b` in the other case. */
  predicate CaseOf(b: char, c: char) {
    'a' <= b <= 'z' && b as int - c as int == 32
  }

  /** The case of ASCII letters makes no difference. */
  lemma AnyCase(s: string, t: string)
    requires |s| == |t| && forall i :: 0 <= i < |s| ==> t[i] == s[i] || CaseOf(s[i], t[i]) || CaseOf(t[i], s[i])
    ensures FromStr(s) == FromStr(t)
  {
    assert AsciiLower(s) == AsciiLower(t);
  }

  class AgentRegistry {
    var sessions: map<nat, AgentSession>

    constructor ()
      ensures sessions == map[]
    {
      sessions := map[];
    }

    method Register(uuid: nat, provider: Provider, session: Option<string>, cwd: Option<string>)
      modifies this
      ensures sessions == old(sessions)[uuid := AgentSession(provider, session, cwd)]
    {
      sessions := sessions[uuid := AgentSession(provider, session, cwd)];
    }

    /** The first session id captured for a surface is kept; later reports are
        answered but change nothing. */
    method SetSessionId(uuid: nat, id: string) returns (r: CaptureResult)
      modifies this
      ensures sessions.Keys == old(sessions).Keys
      ensures forall u :: u in sessions && u != uuid ==> sessions[u] == old(sessions)[u]
      ensures uuid in old(sessions) ==>
                && sessions[uuid].provider == old(sessions)[uuid].provider
                && sessions[uuid].cwd == old(sessions)[uuid].cwd
                && sessions[uuid].session
                   == (if old(sessions)[uuid].session.Some? then old(sessions)[uuid].session else Some(id))
      ensures r == NotAgent <==> uuid !in old(sessions)
      ensures r == AlreadyCaptured <==> uuid in old(sessions) && old(sessions)[uuid].session.Some?
    {
      if uuid !in sessions {
        return NotAgent;
      }
      if sessions[uuid].session.Some? {
        return AlreadyCaptured;
      }
      sessions := sessions[uuid := sessions[uuid].(session := Some(id))];
      return Captured;
    }
  }
}
