/** The handlers that may ask the helper for a privileged operation. */
module Handlers {
  import opened Results

  datatype HelperOp = WifiList | WifiAdd(ssid: string, psk: string) | WifiRemove(ssid: string) | WifiReload | WanUp | WanDown

  /** What the helper said to an operation: done, refused, or not reachable. */
  datatype OpResult = Done | Refused | Unreachable

  /** `body` is the decoded JSON body, None if it is not valid. */
  datatype Request = Request(
    path: string, verb: string, credentials: Option<(string, string)>, body: Option<(string, string)>)

  datatype Response = Response(status: int, sent: Option<HelperOp>)

  datatype Route = Networks | Network | Reload | Up | Down | Other

  const NETWORK_PREFIX := "/api/wifi/networks/"

  /** The pattern of the mux that a path matches; all but five lead to handlers without operations. */
  function RouteOf(path: string): Route {
    if path == "/api/wan/up" then Up
    else if path == "/api/wan/down" then Down
    else if path == "/api/wifi/networks" then Networks
    else if path == "/api/wifi/reload" then Reload
    else if NETWORK_PREFIX <= path then Network
    else Other
  }

  // ----- What all of them do

  predicate Allowed(route: Route, verb: string) {
    match route
    case Networks => verb == "GET" || verb == "POST"
    case Network => verb == "DELETE"
    case Reload => verb == "POST"
    case Up => verb == "POST"
    case Down => verb == "POST"
    case Other => false
  }

  /** The operation a well-formed request asks for. */
  function Wanted(r: Request): Option<HelperOp> {
    match RouteOf(r.path)
    case Up => Some(WanUp)
    case Down => Some(WanDown)
    case Reload => Some(WifiReload)
    case Network => if r.path == NETWORK_PREFIX then None else Some(WifiRemove(r.path[|NETWORK_PREFIX|..]))
    case Networks =>
      if r.verb == "GET" then Some(WifiList)
      else (match r.body case Some((ssid, psk)) => Some(WifiAdd(ssid, psk)) case None => None)
    case Other => None
  }

  /** How the result of an operation is answered. */
  function StatusFor(op: HelperOp, result: OpResult): int {
    if result == Done then 200
    else
      match op
      case WifiList => 503
      case WifiAdd(_, _) => 400
      case WifiRemove(_) => 400
      case WifiReload => 503
      case WanUp => if result == Refused then 500 else 503
      case WanDown => if result == Refused then 500 else 503
  }

  /** Verb, role, socket, then the request itself: the first check that fails decides. */
  function Handle(r: Request, role: string, socket: string, result: OpResult): Response
    requires RouteOf(r.path) != Other
  {
    if !Allowed(RouteOf(r.path), r.verb) then Response(405, None)
    else if role != "admin" then Response(403, None)
    else if socket == "" then Response(503, None)
    else
      match Wanted(r)
      case None => Response(400, None)
      case Some(op) => Response(StatusFor(op, result), Some(op))
  }

  // ----- The handlers

  /** Whether the route takes the verb of the request is whether it is `verb`, as at every call of the shared check. */
  predicate Decides(r: Request, verb: string) {
    RouteOf(r.path) != Other && (Allowed(RouteOf(r.path), r.verb) <==> r.verb == verb)
  }

  /**
   The shared check; None when it passes, else the status written. It passes exactly the requests that
   may go on to the helper. Where `verb` decides, a refusal is the whole answer, with nothing sent, and
   a pass is what it takes for a well-formed request to send its operation.
   */
  method WifiAdminCheck(r: Request, role: string, socket: string, verb: string) returns (refusal: Option<int>)
    ensures refusal.None? <==> r.verb == verb && role == "admin" && socket != ""
    ensures refusal.Some? && Decides(r, verb) ==>
      forall result :: Handle(r, role, socket, result) == Response(refusal.value, None)
    ensures refusal == Some(405) <==> r.verb != verb
    ensures Decides(r, verb) && Wanted(r).Some? ==> (refusal.None? <==> Sends(r, role, socket).Some?)
  {
    if r.verb != verb {
      return Some(405);
    }
    if role != "admin" {
      return Some(403);
    }
    if socket == "" {
      return Some(503);
    }
    return None;
  }

  method WifiNetworks(r: Request, role: string, socket: string, result: OpResult) returns (w: Response)
    requires RouteOf(r.path) == Networks
    ensures w == Handle(r, role, socket, result)
  {
    if r.verb == "GET" {
      if role != "admin" {
        return Response(403, None);
      }
      if socket == "" {
        return Response(503, None);
      }
      return Response(if result == Done then 200 else 503, Some(WifiList));
    } else if r.verb == "POST" {
      var refusal := WifiAdminCheck(r, role, socket, "POST");
      if refusal.Some? {
        return Response(refusal.value, None);
      }
      if r.body.None? {
        return Response(400, None);
      }
      var (ssid, psk) := r.body.value;
      return Response(if result == Done then 200 else 400, Some(WifiAdd(ssid, psk)));
    } else {
      return Response(405, None);
    }
  }

  method WifiNetwork(r: Request, role: string, socket: string, result: OpResult) returns (w: Response)
    requires RouteOf(r.path) == Network
    ensures w == Handle(r, role, socket, result)
  {
    var refusal := WifiAdminCheck(r, role, socket, "DELETE");
    if refusal.Some? {
      return Response(refusal.value, None);
    }
    var ssid := r.path[|NETWORK_PREFIX|..];
    if ssid == "" {
      return Response(400, None);
    }
    return Response(if result == Done then 200 else 400, Some(WifiRemove(ssid)));
  }

  method WifiReloadHandler(r: Request, role: string, socket: string, result: OpResult) returns (w: Response)
    requires RouteOf(r.path) == Reload
    ensures w == Handle(r, role, socket, result)
  {
    var refusal := WifiAdminCheck(r, role, socket, "POST");
    if refusal.Some? {
      return Response(refusal.value, None);
    }
    return Response(if result == Done then 200 else 503, Some(WifiReload));
  }

  method WanOp(r: Request, role: string, socket: string, result: OpResult, op: HelperOp) returns (w: Response)
    requires (RouteOf(r.path) == Up && op == WanUp) || (RouteOf(r.path) == Down && op == WanDown)
    ensures w == Handle(r, role, socket, result)
  {
    if r.verb != "POST" {
      return Response(405, None);
    }
    if role != "admin" {
      return Response(403, None);
    }
    if socket == "" {
      return Response(503, None);
    }
    if result == Unreachable {
      return Response(503, Some(op));
    }
    if result == Done {
      return Response(200, Some(op));
    } else {
      return Response(500, Some(op));
    }
  }

  /** The operation a handler sends, None for the handlers that send none. */
  function Sends(r: Request, role: string, socket: string): Option<HelperOp> {
    if RouteOf(r.path) == Other then None else Handle(r, role, socket, Done).sent
  }

  /** What is sent does not depend on the answer, and the only requests that send anything are an admin's with a socket. */
  lemma SendsExactlyWhen(r: Request, role: string, socket: string, result: OpResult)
    requires RouteOf(r.path) != Other
    ensures Handle(r, role, socket, result).sent == Sends(r, role, socket)
    ensures Sends(r, role, socket).Some? <==>
      Allowed(RouteOf(r.path), r.verb) && role == "admin" && socket != "" && Wanted(r).Some?
    ensures Handle(r, role, socket, result).status == 200 ==> Sends(r, role, socket).Some? && result == Done
  {
  }

  // ----- Requests and answers, spelled out

  /** The requests that ask for an operation. */
  predicate Asks(r: Request, op: HelperOp) {
    match op
    case WanUp => r.verb == "POST" && r.path == "/api/wan/up"
    case WanDown => r.verb == "POST" && r.path == "/api/wan/down"
    case WifiReload => r.verb == "POST" && r.path == "/api/wifi/reload"
    case WifiList => r.verb == "GET" && r.path == "/api/wifi/networks"
    case WifiAdd(ssid, psk) => r.verb == "POST" && r.path == "/api/wifi/networks" && r.body == Some((ssid, psk))
    case WifiRemove(ssid) => r.verb == "DELETE" && r.path == "/api/wifi/networks/" + ssid && ssid != ""
  }

  /** An operation is sent exactly for an admin's request, with a socket, that asks for it. */
  lemma SendsWhatIsAsked(r: Request, role: string, socket: string, op: HelperOp)
    ensures Sends(r, role, socket) == Some(op) <==> role == "admin" && socket != "" && Asks(r, op)
  {
    var prefix := "/api/wifi/networks/";
    match op {
      case WifiRemove(ssid) =>
        PathAfterPrefix(r.path, prefix, ssid);
        NetworkRoute(r.path);
      case _ =>
    }
  }

  lemma PathAfterPrefix(path: string, prefix: string, rest: string)
    ensures path == prefix + rest <==> prefix <= path && path[|prefix|..] == rest
  {
    if prefix <= path {
      assert path == prefix + path[|prefix|..];
    }
  }

  lemma NetworkRoute(path: string)
    ensures "/api/wifi/networks/" <= path <==> RouteOf(path) == Network
  {
    if "/api/wifi/networks/" <= path {
      assert path[5..8] == "wif" && path[10] == 'n';
    }
  }

  /** The verbs that a path takes. */
  predicate Takes(path: string, verb: string) {
    || ((path == "/api/wan/up" || path == "/api/wan/down" || path == "/api/wifi/reload") && verb == "POST")
    || (path == "/api/wifi/networks" && (verb == "GET" || verb == "POST"))
    || ("/api/wifi/networks/" <= path && verb == "DELETE")
  }

  /** How the helper's result is answered. */
  predicate Reports(op: HelperOp, result: OpResult, status: int) {
    match result
    case Done => status == 200
    case Refused =>
      if op == WanUp || op == WanDown then status == 500
      else if op == WifiList || op == WifiReload then status == 503
      else status == 400
    case Unreachable =>
      if op.WifiAdd? || op.WifiRemove? then status == 400 else status == 503
  }

  /** Wrong verb, not an admin, no socket, nothing that can be done: the first of these is answered, with nothing sent. */
  lemma AnswersExactly(r: Request, role: string, socket: string, result: OpResult)
    requires RouteOf(r.path) != Other
    ensures
      var w := Handle(r, role, socket, result);
      if !Takes(r.path, r.verb) then w == Response(405, None)
      else if role != "admin" then w == Response(403, None)
      else if socket == "" then w == Response(503, None)
      else if w.sent == None then w.status == 400 && forall op :: !Asks(r, op)
      else Asks(r, w.sent.value) && Reports(w.sent.value, result, w.status)
  {
    NetworkRoute(r.path);
    var w := Handle(r, role, socket, result);
    SendsExactlyWhen(r, role, socket, result);
    forall op
      ensures w.sent == Some(op) <==> role == "admin" && socket != "" && Asks(r, op)
    {
      SendsWhatIsAsked(r, role, socket, op);
    }
  }
}
