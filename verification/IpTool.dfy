/** The first-match scans over the decoded output of `ip -j`. */
module IpTool {
  import opened Results

  datatype Address = Address(family: string, local: string)
  datatype Route = Route(dst: string, gateway: string, dev: string)

  /** The decoded documents; None when the bytes were not the expected JSON. */
  type AddrDoc = Option<seq<seq<Address>>>
  type RouteDoc = Option<seq<Route>>

  predicate Usable(a: Address) {
    a.family == "inet" && a.local != ""
  }

  predicate Leads(r: Route, iface: string) {
    r.dev == iface && r.gateway != ""
  }

  function Flat(doc: seq<seq<Address>>): seq<Address> {
    if doc == [] then [] else doc[0] + Flat(doc[1..])
  }

  function FirstLocal(addresses: seq<Address>): string {
    if addresses == [] then ""
    else if Usable(addresses[0]) then addresses[0].local
    else FirstLocal(addresses[1..])
  }

  function FirstGateway(routes: seq<Route>, iface: string): string {
    if routes == [] then ""
    else if Leads(routes[0], iface) then routes[0].gateway
    else FirstGateway(routes[1..], iface)
  }

  /** The first IPv4 address of a document, or the empty string. */
  function AddressOf(doc: AddrDoc): string {
    match doc
    case None => ""
    case Some(ifaces) => FirstLocal(Flat(ifaces))
  }

  /** The gateway of the first route for `iface` that has one, or the empty string. */
  function GatewayOf(doc: RouteDoc, iface: string): string {
    match doc
    case None => ""
    case Some(routes) => FirstGateway(routes, iface)
  }

  lemma {:induction false} FirstLocalConcat(a: seq<Address>, b: seq<Address>)
    ensures FirstLocal(a + b) == if FirstLocal(a) != "" then FirstLocal(a) else FirstLocal(b)
  {
    if a == [] {
      assert a + b == b;
    } else {
      assert (a + b)[1..] == a[1..] + b;
      FirstLocalConcat(a[1..], b);
    }
  }

  // ----- What the two scans give, read off the documents

  predicate NoIPv4(addresses: seq<Address>) {
    forall k :: 0 <= k < |addresses| && addresses[k].family == "inet" ==> addresses[k].local == ""
  }

  /** `ip` is the first non-empty IPv4 address of a document, interface by interface; empty if it has none. */
  ghost predicate FirstIPv4(doc: AddrDoc, ip: string) {
    match doc
    case None => ip == ""
    case Some(d) =>
      || (exists i, j :: 0 <= i < |d| && 0 <= j < |d[i]| && d[i][j].family == "inet" && d[i][j].local == ip && ip != ""
            && NoIPv4(d[i][..j]) && forall k :: 0 <= k < i ==> NoIPv4(d[k]))
      || (ip == "" && forall k :: 0 <= k < |d| ==> NoIPv4(d[k]))
  }

  predicate NoHop(routes: seq<Route>, iface: string) {
    forall k :: 0 <= k < |routes| && routes[k].dev == iface ==> routes[k].gateway == ""
  }

  /** `gateway` is that of the first route out of `iface` that has one; empty if none has. */
  ghost predicate FirstHop(doc: RouteDoc, iface: string, gateway: string) {
    match doc
    case None => gateway == ""
    case Some(d) =>
      || (exists i :: 0 <= i < |d| && d[i].dev == iface && d[i].gateway == gateway && gateway != "" && NoHop(d[..i], iface))
      || (gateway == "" && NoHop(d, iface))
  }

  lemma {:induction false} AddressIsFirst(doc: seq<seq<Address>>)
    ensures FirstIPv4(Some(doc), FirstLocal(Flat(doc)))
  {
    if doc != [] {
      FirstLocalConcat(doc[0], Flat(doc[1..]));
      FirstInOne(doc[0]);
      AddressIsFirst(doc[1..]);
      if FirstLocal(doc[0]) == "" {
        NextInterface(doc, FirstLocal(Flat(doc[1..])));
      }
    }
  }

  lemma FirstInOne(addresses: seq<Address>)
    ensures FirstLocal(addresses) == "" ==> NoIPv4(addresses)
    ensures FirstLocal(addresses) != "" ==>
      exists j :: 0 <= j < |addresses| && addresses[j].family == "inet" && addresses[j].local == FirstLocal(addresses)
        && NoIPv4(addresses[..j])
  {
    LocalIsFirst(addresses);
  }

  lemma NextInterface(doc: seq<seq<Address>>, ip: string)
    requires doc != [] && FirstIPv4(Some(doc[1..]), ip) && NoIPv4(doc[0])
    ensures FirstIPv4(Some(doc), ip)
  {
    var rest := doc[1..];
    assert forall k :: 0 < k < |doc| ==> doc[k] == rest[k - 1];
    if ip != "" {
      var i, j :| 0 <= i < |rest| && 0 <= j < |rest[i]| && rest[i][j].family == "inet" && rest[i][j].local == ip
        && NoIPv4(rest[i][..j]) && forall k :: 0 <= k < i ==> NoIPv4(rest[k]);
      assert doc[i + 1][j].family == "inet" && NoIPv4(doc[i + 1][..j]);
    }
  }

  lemma GatewayIsHop(doc: seq<Route>, iface: string)
    ensures FirstHop(Some(doc), iface, FirstGateway(doc, iface))
  {
    GatewayIsFirst(doc, iface);
  }

  /** The specification functions of the two scans give the first match. */
  lemma ScansFindFirst(addr: AddrDoc, route: RouteDoc, iface: string)
    ensures FirstIPv4(addr, AddressOf(addr)) && FirstHop(route, iface, GatewayOf(route, iface))
  {
    if addr.Some? {
      AddressIsFirst(addr.value);
    }
    if route.Some? {
      GatewayIsHop(route.value, iface);
    }
  }

  method ParseIPAddr(doc: AddrDoc) returns (ip: string)
    ensures ip == AddressOf(doc) && FirstIPv4(doc, ip)
  {
    ScansFindFirst(doc, None, "");
    if doc.None? {
      return "";
    }
    var ifaces := doc.value;
    for i := 0 to |ifaces|
      invariant FirstLocal(Flat(ifaces)) == FirstLocal(Flat(ifaces[i..]))
    {
      var addresses := ifaces[i];
      FirstLocalConcat(addresses, Flat(ifaces[i + 1..]));
      for j := 0 to |addresses|
        invariant FirstLocal(addresses) == FirstLocal(addresses[j..])
      {
        if Usable(addresses[j]) {
          return addresses[j].local;
        }
      }
    }
    return "";
  }

  method ParseIPRoute(doc: RouteDoc, iface: string) returns (gateway: string)
    ensures gateway == GatewayOf(doc, iface) && FirstHop(doc, iface, gateway)
  {
    ScansFindFirst(None, doc, iface);
    if doc.None? {
      return "";
    }
    var routes := doc.value;
    for i := 0 to |routes|
      invariant FirstGateway(routes, iface) == FirstGateway(routes[i..], iface)
    {
      if Leads(routes[i], iface) {
        return routes[i].gateway;
      }
    }
    return "";
  }

  /** The first route with a gateway wins; the gateway is empty exactly when no route has one. */
  lemma {:induction false} GatewayIsFirst(routes: seq<Route>, iface: string)
    ensures FirstGateway(routes, iface) == "" <==> forall i :: 0 <= i < |routes| ==> !Leads(routes[i], iface)
    ensures FirstGateway(routes, iface) != "" ==>
      exists i :: 0 <= i < |routes| && Leads(routes[i], iface) && routes[i].gateway == FirstGateway(routes, iface)
        && forall k :: 0 <= k < i ==> !Leads(routes[k], iface)
  {
    if routes != [] {
      var rest := routes[1..];
      GatewayIsFirst(rest, iface);
      assert forall i :: 0 <= i < |rest| ==> rest[i] == routes[i + 1];
      if !Leads(routes[0], iface) && FirstGateway(rest, iface) != "" {
        var i :| 0 <= i < |rest| && Leads(rest[i], iface) && rest[i].gateway == FirstGateway(rest, iface)
          && forall k :: 0 <= k < i ==> !Leads(rest[k], iface);
        assert Leads(routes[i + 1], iface);
        forall k | 0 <= k < i + 1
          ensures !Leads(routes[k], iface)
        {
          assert k > 0 ==> !Leads(rest[k - 1], iface);
        }
      }
    }
  }

  /** The same for addresses, in the order of the document. */
  lemma {:induction false} LocalIsFirst(addresses: seq<Address>)
    ensures FirstLocal(addresses) == "" <==> forall i :: 0 <= i < |addresses| ==> !Usable(addresses[i])
    ensures FirstLocal(addresses) != "" ==>
      exists i :: 0 <= i < |addresses| && Usable(addresses[i]) && addresses[i].local == FirstLocal(addresses)
        && forall k :: 0 <= k < i ==> !Usable(addresses[k])
  {
    if addresses != [] {
      var rest := addresses[1..];
      LocalIsFirst(rest);
      assert forall i :: 0 <= i < |rest| ==> rest[i] == addresses[i + 1];
      if !Usable(addresses[0]) && FirstLocal(rest) != "" {
        var i :| 0 <= i < |rest| && Usable(rest[i]) && rest[i].local == FirstLocal(rest)
          && forall k :: 0 <= k < i ==> !Usable(rest[k]);
        assert Usable(addresses[i + 1]);
        forall k | 0 <= k < i + 1
          ensures !Usable(addresses[k])
        {
          assert k > 0 ==> !Usable(rest[k - 1]);
        }
      }
    }
  }
}
