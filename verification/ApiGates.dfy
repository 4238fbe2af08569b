/** The privileged handlers of the dashboard (dashboard/internal/api/handlers.go) and their routes. */
module ApiGates {
  import opened Wrappers

  /** A request as the handlers see it; body is None when it is not the expected JSON. */
  datatype Request = Request(verb: string, path: string, auth: Option<(string, string)>, body: Option<(string, string)>)

  datatype HelperOp = WanUp | WanDown | WifiList | WifiAdd(ssid: string, psk: string) | WifiRemove(ssid: string) | WifiReload

  /** Either the helper is sent an operation, or the request is refused with a status, or it is for
      a handler without privileges. */
  datatype Reaction = Send(op: HelperOp) | Refuse(status: int) | Unprivileged

  const NETWORKS := "/api/wifi/networks/"

  /** wifiAdminCheck: None when every check passes. */
  function WifiAdminCheck(r: Request, role: string, socket: bool, verb: string): Option<int> {
    if r.verb != verb then Some(405)
    else if role != "admin" then Some(403)
    else if !socket then Some(503)
    else None
  }

  function WifiNetworks(r: Request, role: string, socket: bool): Reaction {
    if r.verb == "GET" then
      if role != "admin" then Refuse(403) else if !socket then Refuse(503) else Send(WifiList)
    else if r.verb == "POST" then
      var c := WifiAdminCheck(r, role, socket, "POST");
      if c.Some? then Refuse(c.value)
      else if r.body.None? then Refuse(400)
      else Send(WifiAdd(r.body.value.0, r.body.value.1))
    else Refuse(405)
  }

  function WifiNetwork(r: Request, role: string, socket: bool): Reaction
    requires NETWORKS <= r.path
  {
    var c := WifiAdminCheck(r, role, socket, "DELETE");
    if c.Some? then Refuse(c.value)
    else if r.path[|NETWORKS|..] == "" then Refuse(400)
    else Send(HelperOp.WifiRemove(r.path[|NETWORKS|..]))
  }

  function WifiReload(r: Request, role: string, socket: bool): Reaction {
    var c := WifiAdminCheck(r, role, socket, "POST");
    if c.Some? then Refuse(c.value) else Send(HelperOp.WifiReload)
  }

  function WanOp(r: Request, role: string, socket: bool, op: HelperOp): Reaction {
    if r.verb != "POST" then Refuse(405)
    else if role != "admin" then Refuse(403)
    else if !socket then Refuse(503)
    else Send(op)
  }

  /** The routes of dashboard/cmd/pispot-ui/main.go. */
  function React(r: Request, role: string, socket: bool): Reaction {
    if r.path == "/api/wan/up" then WanOp(r, role, socket, WanUp)
    else if r.path == "/api/wan/down" then WanOp(r, role, socket, WanDown)
    else if r.path == "/api/wifi/networks" then WifiNetworks(r, role, socket)
    else if NETWORKS <= r.path then WifiNetwork(r, role, socket)
    else if r.path == "/api/wifi/reload" then WifiReload(r, role, socket)
    else Unprivileged
  }

  /** The operation a request asks for, whoever sends it. */
  function Asks(r: Request): Option<HelperOp> {
    match r.verb
    case "GET" => if r.path == "/api/wifi/networks" then Some(WifiList) else None
    case "DELETE" => if NETWORKS < r.path then Some(HelperOp.WifiRemove(r.path[|NETWORKS|..])) else None
    case "POST" =>
      if r.path == "/api/wan/up" then Some(WanUp)
      else if r.path == "/api/wan/down" then Some(WanDown)
      else if r.path == "/api/wifi/reload" then Some(HelperOp.WifiReload)
      else if r.path == "/api/wifi/networks" && r.body.Some? then Some(WifiAdd(r.body.value.0, r.body.value.1))
      else None
    case _ => None
  }

  /** THE GATE, exactly: an operation goes to the helper if and only if the request asks for it, the
      role is admin, and a socket is configured. */
  lemma GateExact(r: Request, role: string, socket: bool, op: HelperOp)
    ensures React(r, role, socket) == Send(op) <==> Asks(r) == Some(op) && role == "admin" && socket
  {
    Verbs();
    Paths(r.path);
  }

  lemma Verbs()
    ensures "GET" != "POST" && "GET" != "DELETE" && "POST" != "DELETE"
  {
    assert "GET"[0] != "POST"[0] && "GET"[0] != "DELETE"[0] && "POST"[0] != "DELETE"[0];
  }

  /** The routes exclude each other. */
  lemma Paths(path: string)
    ensures NETWORKS <= path ==>
      path !in {"/api/wan/up", "/api/wan/down", "/api/wifi/networks", "/api/wifi/reload"}
    ensures |{"/api/wan/up", "/api/wan/down", "/api/wifi/networks", "/api/wifi/reload"}| == 4
  {
    assert |"/api/wan/up"| == 11 && |"/api/wan/down"| == 13;
    assert |"/api/wifi/networks"| == 18 && |"/api/wifi/reload"| == 16 && |NETWORKS| == 19;
  }

  /** The routes of the privileged handlers, and the methods each of them knows. */
  predicate Privileged(path: string) {
    path in {"/api/wan/up", "/api/wan/down", "/api/wifi/networks", "/api/wifi/reload"} || NETWORKS <= path
  }

  predicate Allowed(path: string, verb: string) {
    if path == "/api/wifi/networks" then verb in {"GET", "POST"}
    else if NETWORKS <= path then verb == "DELETE"
    else verb == "POST"
  }

  /** THE WHOLE ANSWER.  A request for a privileged route is refused with 405 for its method, then 403 for
      its role, then 503 without a socket, then 400 when it asks for nothing; otherwise what it asks for is
      sent. */
  lemma ReactExact(r: Request, role: string, socket: bool)
    ensures React(r, role, socket)
         == if !Privileged(r.path) then Unprivileged
            else if !Allowed(r.path, r.verb) then Refuse(405)
            else if role != "admin" then Refuse(403)
            else if !socket then Refuse(503)
            else if Asks(r).None? then Refuse(400)
            else Send(Asks(r).value)
  {
    Verbs();
    Paths(r.path);
  }
}
