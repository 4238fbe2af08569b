/** The host side of authentication: group resolution (host/internal/groups/lookup.go) and the verdict
    of pispot-authd (handleAuth in host/cmd/pispot-authd/main.go). */
module HelperAuth {
  import opened Wrappers

  datatype Config = Config(readonlyGroup: string, adminGroup: string)

  /** What NSS says about a user: for each group id, the group's name, or None when the id does not resolve. */
  datatype Lookup = UnknownUser | NoGroupIds | Groups(names: seq<Option<string>>)

  datatype Resolution = Role(role: string) | NotAuthorized | LookupFailed

  /** Some resolvable group id of the user is named `group`. */
  predicate MemberOf(lookup: Lookup, group: string) {
    lookup.Groups? && Some(group) in lookup.names
  }

  /** Resolve: admin wins, then readonly, and nothing else gives a role. */
  method Resolve(lookup: Lookup, cfg: Config) returns (r: Resolution)
    ensures r == Role("admin") <==> MemberOf(lookup, cfg.adminGroup)
    ensures r == Role("readonly") <==> MemberOf(lookup, cfg.readonlyGroup) && !MemberOf(lookup, cfg.adminGroup)
    ensures r == LookupFailed <==> !lookup.Groups?
    ensures r in {Role("admin"), Role("readonly"), NotAuthorized, LookupFailed}
    ensures r == Verdict(lookup, cfg)
  {
    if !lookup.Groups? {
      return LookupFailed;
    }
    var gids := lookup.names;
    var inReadonly, inAdmin := false, false;
    for i := 0 to |gids|
      invariant inAdmin <==> Some(cfg.adminGroup) in gids[..i]
      invariant inReadonly <==> Some(cfg.readonlyGroup) in gids[..i] && cfg.readonlyGroup != cfg.adminGroup
    {
      assert gids[..i + 1] == gids[..i] + [gids[i]];
      if gids[i].None? {
        continue;
      }
      if gids[i].value == cfg.adminGroup {
        inAdmin := true;
      } else if gids[i].value == cfg.readonlyGroup {
        inReadonly := true;
      }
    }
    assert gids[..|gids|] == gids;
    if inAdmin {
      r := Role("admin");
    } else if inReadonly {
      r := Role("readonly");
    } else {
      r := NotAuthorized;
    }
  }

  function Verdict(lookup: Lookup, cfg: Config): Resolution {
    if !lookup.Groups? then LookupFailed
    else if MemberOf(lookup, cfg.adminGroup) then Role("admin")
    else if MemberOf(lookup, cfg.readonlyGroup) then Role("readonly")
    else NotAuthorized
  }

  datatype Response = Response(ok: bool, username: string, role: string, error: string)

  function Denied(error: string): Response {
    Response(false, "", "", error)
  }

  /** What the host knows when the helper is asked: PAM's answer and the user's groups, at that moment. */
  datatype Host = Host(pamOk: bool, lookup: Lookup)

  function HandleAuth(username: string, password: string, host: Host, cfg: Config): Response {
    if username == "" || password == "" then Denied("username and password required")
    else if !host.pamOk then Denied("authentication failed")
    else match Verdict(host.lookup, cfg)
      case Role(role) => Response(true, username, role, "")
      case NotAuthorized => Denied("not authorized")
      case LookupFailed => Denied("authorization error")
  }

  /** Why a user is turned away. */
  function Reason(username: string, password: string, host: Host): string {
    if username == "" || password == "" then "username and password required"
    else if !host.pamOk then "authentication failed"
    else if host.lookup.Groups? then "not authorized"
    else "authorization error"
  }

  /** The helper says Ok exactly to a user PAM accepts who is in one of the two groups, and the role
      it grants is admin exactly for members of the admin group. */
  lemma HandleAuthGrants(username: string, password: string, host: Host, cfg: Config)
    ensures var r := HandleAuth(username, password, host, cfg);
            && (r.ok <==> username != "" && password != "" && host.pamOk
                          && (MemberOf(host.lookup, cfg.adminGroup) || MemberOf(host.lookup, cfg.readonlyGroup)))
            && (r.role == "admin" <==> r.ok && MemberOf(host.lookup, cfg.adminGroup))
            && (r.ok ==> r.username == username && r.role in {"admin", "readonly"} && r.error == "")
            && (!r.ok ==> r.username == "" && r.role == "" && r.error == Reason(username, password, host))
  {
    var r := HandleAuth(username, password, host, cfg);
    assert "admin" != "readonly" by { assert |"admin"| != |"readonly"|; }
  }
}
