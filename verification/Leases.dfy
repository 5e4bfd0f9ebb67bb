/** The parser for the dnsmasq lease file. */
module Leases {
  import opened Results
  import opened Text
  import opened LastWins

  datatype Lease = Lease(ip: string, hostname: string)

  /** The lower-cased MAC address and the lease of a well-formed line. */
  function LeaseOf(line: string): Option<(string, Lease)> {
    var t := Trim(line);
    if t == "" || "#" <= t then None
    else
      var fields := Fields(t);
      if |fields| < 4 then None
      else Some((ToLower(fields[1]), Lease(fields[2], if fields[3] == "*" then "" else fields[3])))
  }

  method ParseLeases(raw: string) returns (out: map<string, Lease>)
    ensures out == Table(ScanLines(raw), LeaseOf)
  {
    var lines := ScanLines(raw);
    out := map[];
    for i := 0 to |lines|
      invariant out == Table(lines[..i], LeaseOf)
    {
      assert lines[..i + 1][..i] == lines[..i];
      var line := Trim(lines[i]);
      if line == "" || "#" <= line {
        continue;
      }
      var fields := Fields(line);
      if |fields| < 4 {
        continue;
      }
      var mac := ToLower(fields[1]);
      var ip := fields[2];
      var hostname := fields[3];
      if hostname == "*" {
        hostname := "";
      }
      out := out[mac := Lease(ip, hostname)];
    }
    assert lines[..|lines|] == lines;
  }

  /** A lookup finds the lease of the last well-formed line with that MAC address. */
  lemma LookupFindsLastLine(raw: string, mac: string)
    ensures
      var out := Table(ScanLines(raw), LeaseOf);
      var last := Last(ScanLines(raw), LeaseOf, mac);
      (mac in out <==> last.Some?) && (mac in out ==> out[mac] == last.value)
  {
    TableIsLast(ScanLines(raw), LeaseOf, mac);
  }

  /** A lease file cut after a line feed gives the right-biased merge of its two parts. */
  lemma LeasesMerge(a: string, b: string)
    ensures Table(ScanLines(a + "\n" + b), LeaseOf) ==
      Table(ScanLines(a + "\n"), LeaseOf) + Table(ScanLines(b), LeaseOf)
  {
    ScanCut(a, b);
    TableConcat(ScanLines(a + "\n"), ScanLines(b), LeaseOf);
  }

  // ----- What a lease file says about a station

  /** A line that is no comment and has a fourth field, with that MAC address in any case as its second. */
  predicate LeaseLineFor(line: string, mac: string) {
    var t := Trim(line);
    t != "" && t[0] != '#' && |Fields(t)| >= 4 && SameButCase(Fields(t)[1], mac)
  }

  /** Address and name are the third and the fourth field of such a line. */
  predicate Says(line: string, ip: string, hostname: string) {
    var f := Fields(Trim(line));
    |f| >= 4 && ip == f[2] && hostname == if f[3] == "*" then "" else f[3]
  }

  /** Address and name come from the last line for the station, and are empty if there is none. */
  ghost predicate GotLease(lines: seq<string>, mac: string, ip: string, hostname: string) {
    || (exists i :: 0 <= i < |lines| && LeaseLineFor(lines[i], mac) && Says(lines[i], ip, hostname)
          && forall j :: i < j < |lines| ==> !LeaseLineFor(lines[j], mac))
    || (ip == "" && hostname == "" && forall i :: 0 <= i < |lines| ==> !LeaseLineFor(lines[i], mac))
  }

  lemma LeaseLineMeaning(line: string, mac: string)
    requires NoCapitals(mac)
    ensures Gives(LeaseOf(line), mac) <==> LeaseLineFor(line, mac)
    ensures Gives(LeaseOf(line), mac) ==> Says(line, LeaseOf(line).value.1.ip, LeaseOf(line).value.1.hostname)
  {
    if |Fields(Trim(line))| >= 4 {
      LowerIsSpelling(Fields(Trim(line))[1], mac);
    }
  }

  /** The lease that a lookup finds is the one the file gives the station. */
  lemma LookupGetsLease(lines: seq<string>, mac: string)
    requires NoCapitals(mac)
    ensures
      match Last(lines, LeaseOf, mac)
      case Some(lease) => GotLease(lines, mac, lease.ip, lease.hostname)
      case None => GotLease(lines, mac, "", "")
  {
    var i := LastAt(lines, LeaseOf, mac);
    forall j | 0 <= j < |lines|
      ensures Gives(LeaseOf(lines[j]), mac) <==> LeaseLineFor(lines[j], mac)
    {
      LeaseLineMeaning(lines[j], mac);
    }
    if i >= 0 {
      LeaseLineMeaning(lines[i], mac);
    }
  }
}
