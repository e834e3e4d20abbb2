/** The real client address behind a reverse proxy (app/api/client_ip.py), and the
    rate-limit bucket it selects. Address parsing is a parameter. */
module ClientIp {
  import opened Wrappers
  import opened Text
  import RateLimiter
  import Windows

  /** A parsed address, and a network as the range of its addresses. */
  datatype Address = Address(version: int, bits: nat)

  datatype Network = Network(version: int, first: nat, last: nat)

  predicate Contains(n: Network, a: Address) {
    n.version == a.version && n.first <= a.bits <= n.last
  }

  datatype Parsers = Parsers(address: string -> Option<Address>, network: string -> Option<Network>)

  /** The configured networks that parse, in order. */
  function Networks(p: Parsers, cidrs: seq<string>): seq<Network> {
    if cidrs == [] then []
    else
      var n := |cidrs| - 1;
      Networks(p, cidrs[..n]) + match p.network(cidrs[n]) case None => [] case Some(net) => [net]
  }

  ghost predicate Trusted(p: Parsers, networks: seq<Network>, address: string) {
    && address != ""
    && p.address(address).Some?
    && exists i | 0 <= i < |networks| :: Contains(networks[i], p.address(address).value)
  }

  /** The comma-separated parts of a header, stripped, without empty ones. */
  function Parts(header: string): seq<string> {
    Kept(Split(header))
  }

  /** `header.split(",")`. */
  function Split(header: string): (r: seq<string>)
    ensures r != []
  {
    if header == "" then [""]
    else
      var rest := Split(header[1..]);
      if header[0] == ',' then [""] + rest else [[header[0]] + rest[0]] + rest[1..]
  }

  function Kept(parts: seq<string>): seq<string> {
    if parts == [] then []
    else (if Strip(parts[0]) == "" then [] else [Strip(parts[0])]) + Kept(parts[1..])
  }

  /** The right-most hop that is not trusted, if any. */
  ghost function RightmostUntrusted(p: Parsers, networks: seq<Network>, hops: seq<string>): Option<string> {
    if hops == [] then None
    else
      var n := |hops| - 1;
      if !Trusted(p, networks, hops[n]) then Some(hops[n]) else RightmostUntrusted(p, networks, hops[..n])
  }

  /** The resolved address of a request. */
  ghost function Resolved(p: Parsers, networks: seq<Network>, peer: Option<string>, header: string): Option<string> {
    if peer.None? || !Trusted(p, networks, peer.value) then peer
    else
      match RightmostUntrusted(p, networks, Parts(header))
      case Some(hop) => Some(hop)
      case None => peer
  }

  class ProxyTrust {
    const parsers: Parsers
    var networks: seq<Network>

    constructor (parsers: Parsers, cidrs: seq<string>)
      ensures this.parsers == parsers && networks == Networks(parsers, cidrs)
    {
      this.parsers := parsers;
      networks := [];
      new;
      for k := 0 to |cidrs|
        invariant networks == Networks(parsers, cidrs[..k])
      {
        assert cidrs[..k + 1][..k] == cidrs[..k];
        var net := parsers.network(cidrs[k]);
        if net.Some? {
          networks := networks + [net.value];
        }
      }
      assert cidrs[..|cidrs|] == cidrs;
    }

    method Trusts(address: string) returns (b: bool)
      ensures b == Trusted(parsers, networks, address)
    {
      if address == "" || networks == [] {
        return false;
      }
      var ip := parsers.address(address);
      if ip.None? {
        return false;
      }
      b := false;
      for k := 0 to |networks|
        invariant b == exists i | 0 <= i < k :: Contains(networks[i], ip.value)
      {
        b := b || Contains(networks[k], ip.value);
      }
    }

    method ClientIp(peer: Option<string>, forwarded: string) returns (ip: Option<string>)
      ensures ip == Resolved(parsers, networks, peer, forwarded)
    {
      if peer.None? {
        return peer;
      }
      var t := Trusts(peer.value);
      if !t {
        return peer;
      }
      var hops := Parts(forwarded);
      var k := |hops|;
      assert hops[..k] == hops;
      while k > 0
        invariant 0 <= k <= |hops|
        invariant RightmostUntrusted(parsers, networks, hops[..k]) == RightmostUntrusted(parsers, networks, hops)
      {
        k := k - 1;
        assert hops[..k + 1][..k] == hops[..k];
        t := Trusts(hops[k]);
        if !t {
          return Some(hops[k]);
        }
      }
      return peer;
    }
  }

  /** The networks are exactly those of the configured entries that parse. */
  lemma {:induction false} NetworksSound(p: Parsers, cidrs: seq<string>)
    ensures forall n :: n in Networks(p, cidrs) <==> exists c :: c in cidrs && p.network(c) == Some(n)
  {
    if cidrs != [] {
      var k := |cidrs| - 1;
      NetworksSound(p, cidrs[..k]);
      assert cidrs == cidrs[..k] + [cidrs[k]];
    }
  }

  // ------------------------------------------------------------ forged prefixes

  lemma {:induction false} SplitConcat(a: string, b: string)
    ensures Split(a + "," + b) == Split(a) + Split(b)
  {
    var s := a + "," + b;
    if a == "" {
      assert s[0] == ',' && s[1..] == b;
    } else {
      assert s[0] == a[0] && s[1..] == a[1..] + "," + b;
      SplitConcat(a[1..], b);
    }
  }

  lemma {:induction false} KeptConcat(a: seq<string>, b: seq<string>)
    ensures Kept(a + b) == Kept(a) + Kept(b)
  {
    if a == [] {
      assert a + b == b;
    } else {
      assert (a + b)[0] == a[0] && (a + b)[1..] == a[1..] + b;
      KeptConcat(a[1..], b);
      ConcatAssoc(if Strip(a[0]) == "" then [] else [Strip(a[0])], Kept(a[1..]), Kept(b));
    }
  }

  lemma {:induction false} RightmostInTail(p: Parsers, networks: seq<Network>, front: seq<string>, tail: seq<string>)
    requires RightmostUntrusted(p, networks, tail).Some?
    ensures RightmostUntrusted(p, networks, front + tail) == RightmostUntrusted(p, networks, tail)
  {
    var n := |tail| - 1;
    var all := front + tail;
    assert all[|all| - 1] == tail[n] && all[..|all| - 1] == front + tail[..n];
    if Trusted(p, networks, tail[n]) {
      RightmostInTail(p, networks, front, tail[..n]);
    }
  }

  /** Behind a trusted peer, whatever is put in front of a header that holds an
      untrusted hop changes nothing: the address is resolved within the header. */
  lemma {:induction false} ForgedPrefixIgnored(p: Parsers, networks: seq<Network>, peer: string, forged: string,
          header: string)
    requires Trusted(p, networks, peer) && RightmostUntrusted(p, networks, Parts(header)).Some?
    ensures Resolved(p, networks, Some(peer), forged + "," + header) == Resolved(p, networks, Some(peer), header)
    ensures Resolved(p, networks, Some(peer), header) == RightmostUntrusted(p, networks, Parts(header))
  {
    SplitConcat(forged, header);
    KeptConcat(Split(forged), Split(header));
    RightmostInTail(p, networks, Parts(forged), Parts(header));
  }

  /** When the header itself holds only trusted hops, what stands before it decides. */
  lemma {:induction false} TrustedTail(p: Parsers, networks: seq<Network>, front: seq<string>, tail: seq<string>)
    requires RightmostUntrusted(p, networks, tail).None?
    ensures RightmostUntrusted(p, networks, front + tail) == RightmostUntrusted(p, networks, front)
  {
    if tail == [] {
      assert front + tail == front;
    } else {
      var n := |tail| - 1;
      var all := front + tail;
      assert all[|all| - 1] == tail[n] && all[..|all| - 1] == front + tail[..n];
      TrustedTail(p, networks, front, tail[..n]);
    }
  }

  /** A text that a header part can be. */
  ghost predicate IsHop(hop: string) {
    hop != "" && Trimmed(hop) && forall i | 0 <= i < |hop| :: hop[i] != ','
  }

  lemma {:induction false} SplitWhole(s: string)
    requires forall i | 0 <= i < |s| :: s[i] != ','
    ensures Split(s) == [s]
  {
    if s != "" {
      SplitWhole(s[1..]);
      assert [s[0]] + s[1..] == s;
    }
  }

  lemma PartsOfHop(hop: string)
    requires IsHop(hop)
    ensures Parts(hop) == [hop]
  {
    var parts := Split(hop);
    SplitWhole(hop);
    StripTrims(hop);
    assert parts[0] == hop && Kept(parts[1..]) == [];
    assert Kept(parts) == [Strip(hop)] + Kept(parts[1..]);
  }

  /** Behind a trusted peer, a client whose own address is trusted too is taken for whatever
      untrusted address it writes in front. */
  lemma {:induction false} ForgedHopTaken(p: Parsers, networks: seq<Network>, peer: string, forged: string,
          header: string)
    requires Trusted(p, networks, peer) && RightmostUntrusted(p, networks, Parts(header)).None?
    requires IsHop(forged) && !Trusted(p, networks, forged)
    ensures Resolved(p, networks, Some(peer), forged + "," + header) == Some(forged)
  {
    SplitConcat(forged, header);
    KeptConcat(Split(forged), Split(header));
    PartsOfHop(forged);
    TrustedTail(p, networks, [forged], Parts(header));
    assert Parts(forged + "," + header) == [forged] + Parts(header);
    assert RightmostUntrusted(p, networks, [forged]) == Some(forged);
  }

  lemma {:induction false} UntrustedName(p: Parsers, networks: seq<Network>, x: string)
    requires x == "x" && p.address(x).None?
    ensures IsHop(x) && !Trusted(p, networks, x)
  {
  }

  /** The header of a peer that is not trusted is not looked at. */
  lemma {:induction false} DirectPeerIsItself(p: Parsers, networks: seq<Network>, peer: string, header: string)
    requires !Trusted(p, networks, peer)
    ensures Resolved(p, networks, Some(peer), header) == Some(peer)
  {
  }

  ghost predicate AllTrusted(p: Parsers, networks: seq<Network>, hops: seq<string>, from: nat) {
    forall i | from <= i < |hops| :: Trusted(p, networks, hops[i])
  }

  /** The i-th hop is the right-most that is not trusted. */
  ghost predicate LastUntrusted(p: Parsers, networks: seq<Network>, hops: seq<string>, i: nat) {
    i < |hops| && !Trusted(p, networks, hops[i]) && AllTrusted(p, networks, hops, i + 1)
  }

  /** Behind a trusted peer the address is that of the right-most untrusted hop, and of the
      peer if there is none. */
  lemma {:induction false} TrustedPeerCases(p: Parsers, networks: seq<Network>, peer: string, header: string, i: nat)
    requires Trusted(p, networks, peer)
    ensures AllTrusted(p, networks, Parts(header), 0) ==> Resolved(p, networks, Some(peer), header) == Some(peer)
    ensures LastUntrusted(p, networks, Parts(header), i) ==>
      Resolved(p, networks, Some(peer), header) == Some(Parts(header)[i])
  {
    var hops := Parts(header);
    ResolvedIsSound(p, networks, hops);
    if LastUntrusted(p, networks, hops, i) && RightmostUntrusted(p, networks, hops).Some? {
      var k :| 0 <= k < |hops| && hops[k] == RightmostUntrusted(p, networks, hops).value
        && !Trusted(p, networks, hops[k]) && forall j | k < j < |hops| :: Trusted(p, networks, hops[j]);
      assert i == k;
    }
  }

  /** Forged prefixes are irrelevant exactly when the peer is not trusted or the header holds
      an untrusted hop. */
  lemma {:induction false} ForgeryIsVainIff(p: Parsers, networks: seq<Network>, peer: string, header: string)
    requires p.address("x").None?
    ensures (forall forged ::
               Resolved(p, networks, Some(peer), forged + "," + header) == Resolved(p, networks, Some(peer), header))
       <==> !Trusted(p, networks, peer) || RightmostUntrusted(p, networks, Parts(header)).Some?
  {
    if !Trusted(p, networks, peer) {
    } else if RightmostUntrusted(p, networks, Parts(header)).Some? {
      forall forged
        ensures Resolved(p, networks, Some(peer), forged + "," + header) == Resolved(p, networks, Some(peer), header)
      {
        ForgedPrefixIgnored(p, networks, peer, forged, header);
      }
    } else {
      var x :| x == "x";
      UntrustedName(p, networks, x);
      ForgedHopTaken(p, networks, peer, x, header);
    }
  }

  /** Header parts are separated by commas ... */
  lemma PartsOfJoined(hop: string, rest: string)
    requires IsHop(hop)
    ensures Parts(hop + "," + rest) == [hop] + Parts(rest)
  {
    PartsOfHop(hop);
    SplitConcat(hop, rest);
    KeptConcat(Split(hop), Split(rest));
  }

  /** ... may be surrounded by blanks ... */
  lemma PartsOfPadded(hop: string, rest: string)
    requires IsHop(hop)
    ensures Parts(" " + hop + " " + "," + rest) == [hop] + Parts(rest)
  {
    var padded := " " + hop + " ";
    SplitConcat(padded, rest);
    KeptConcat(Split(padded), Split(rest));
    PaddedHop(hop);
  }

  /** ... and are left out when empty. */
  lemma PartsOfEmpty(empty: string, rest: string)
    requires empty == ""
    ensures Parts(empty + "," + rest) == Parts(rest)
  {
    SplitConcat(empty, rest);
    KeptConcat([empty], Split(rest));
    EmptyPart(empty);
  }

  lemma EmptyPart(s: string)
    requires s == ""
    ensures Kept([s]) == []
  {
    assert [s][1..] == [] && Strip(s) == "";
  }

  lemma PaddedHop(hop: string)
    requires IsHop(hop)
    ensures Parts(" " + hop + " ") == [hop]
  {
    var padded := " " + hop + " ";
    assert forall i | 0 <= i < |padded| :: padded[i] == (if 0 < i <= |hop| then hop[i - 1] else ' ');
    SplitWhole(padded);
    assert padded[1..] == hop + " " && StripLeft(padded) == StripLeft(padded[1..]);
    assert StripLeft(hop + " ") == hop + " ";
    assert (hop + " ")[..|hop|] == hop;
    assert StripRight(hop + " ") == StripRight(hop) == hop;
    var parts := [padded];
    assert Kept(parts) == [Strip(parts[0])] + Kept(parts[1..]);
  }

  /** The resolved address is the peer itself or one of the header's parts, and it is
      trusted only if every part is. */
  lemma {:induction false} ResolvedIsSound(p: Parsers, networks: seq<Network>, hops: seq<string>)
    ensures match RightmostUntrusted(p, networks, hops)
      case None => forall i | 0 <= i < |hops| :: Trusted(p, networks, hops[i])
      case Some(hop) => exists i | 0 <= i < |hops| ::
        hops[i] == hop && !Trusted(p, networks, hop) && forall j | i < j < |hops| :: Trusted(p, networks, hops[j])
  {
    if hops != [] {
      var n := |hops| - 1;
      if Trusted(p, networks, hops[n]) {
        ResolvedIsSound(p, networks, hops[..n]);
        assert forall i | 0 <= i < n :: hops[..n][i] == hops[i];
      }
    }
  }

  // --------------------------------------------------- one bucket per real client

  /** A request with its immediate peer and the two parts of its header: what the client
      sent, if anything, and what the last proxy appended. */
  datatype Request = Request(peer: Option<string>, sent: Option<string>, appended: string, at: real)

  function Header(r: Request): string {
    match r.sent case None => r.appended case Some(h) => h + "," + r.appended
  }

  ghost function BucketKey(p: Parsers, networks: seq<Network>, r: Request): string {
    match Resolved(p, networks, r.peer, Header(r))
    case None => "unknown"
    case Some(ip) => if ip == "" then "unknown" else ip
  }

  /** The requests as the rate limiter sees them. */
  ghost function Keyed(p: Parsers, networks: seq<Network>, rs: seq<Request>): (r: seq<RateLimiter.Request>)
    ensures |r| == |rs| && forall i | 0 <= i < |rs| ::
        r[i] == RateLimiter.Request(BucketKey(p, networks, rs[i]), rs[i].at)
  {
    if rs == [] then []
    else
      var n := |rs| - 1;
      Keyed(p, networks, rs[..n]) + [RateLimiter.Request(BucketKey(p, networks, rs[n]), rs[n].at)]
  }

  /** A request that a client whose own address is not trusted sends, directly or through a
      trusted proxy. */
  ghost predicate SentBy(p: Parsers, networks: seq<Network>, r: Request, client: string) {
    && r.peer.Some? && client != ""
    && if Trusted(p, networks, r.peer.value) then RightmostUntrusted(p, networks, Parts(r.appended)) == Some(client)
       else r.peer.value == client
  }

  /** The admission times of those requests, among any others. */
  ghost function AdmissionsOf(p: Parsers, networks: seq<Network>, limit: int, rs: seq<Request>,
          client: string): seq<real> {
    if rs == [] then []
    else
      var n := |rs| - 1;
      var before := AdmissionsOf(p, networks, limit, rs[..n], client);
      if SentBy(p, networks, rs[n], client)
         && RateLimiter.VerdictAfter(limit, Keyed(p, networks, rs[..n]), Keyed(p, networks, rs)[n])
             == RateLimiter.Admitted
      then before + [rs[n].at] else before
  }

  ghost predicate InTime(rs: seq<Request>) {
    forall i, j | 0 <= i < j < |rs| :: rs[i].at <= rs[j].at
  }

  lemma {:induction false} KeptNotEmpty(parts: seq<string>)
    ensures forall i | 0 <= i < |Kept(parts)| :: Kept(parts)[i] != ""
  {
    if parts != [] {
      KeptNotEmpty(parts[1..]);
    }
  }

  /** Whatever the client sent, its request is counted in the bucket of its own address. */
  lemma {:induction false} KeyIsClient(p: Parsers, networks: seq<Network>, r: Request, client: string)
    requires SentBy(p, networks, r, client)
    ensures BucketKey(p, networks, r) == client
  {
    if Trusted(p, networks, r.peer.value) && r.sent.Some? {
      ForgedPrefixIgnored(p, networks, r.peer.value, r.sent.value, r.appended);
    }
    ResolvedIsSound(p, networks, Parts(r.appended));
    KeptNotEmpty(Split(r.appended));
  }

  /** All admissions of a client's requests are admissions of its one bucket. */
  lemma {:induction false} AdmissionsAreCounted(p: Parsers, networks: seq<Network>, limit: int, rs: seq<Request>,
          client: string, lo: real, hi: real)
    ensures Windows.CountIn(AdmissionsOf(p, networks, limit, rs, client), lo, hi)
         <= Windows.CountIn(RateLimiter.Admissions(limit, Keyed(p, networks, rs), client), lo, hi)
  {
    if rs != [] {
      var n := |rs| - 1;
      var init, last := Keyed(p, networks, rs[..n]), Keyed(p, networks, rs)[n];
      AdmissionsAreCounted(p, networks, limit, rs[..n], client, lo, hi);
      if SentBy(p, networks, rs[n], client) {
        KeyIsClient(p, networks, rs[n], client);
      }
      assert Keyed(p, networks, rs) == init + [last];
      LastAdmission(limit, init, last, client, lo, hi);
      CountAppend(AdmissionsOf(p, networks, limit, rs[..n], client), rs[n].at, lo, hi);
    }
  }

  lemma CountAppend(ts: seq<real>, t: real, lo: real, hi: real)
    ensures Windows.CountIn(ts + [t], lo, hi) == Windows.CountIn(ts, lo, hi) + if lo <= t <= hi then 1 else 0
  {
    assert (ts + [t])[..|ts|] == ts;
  }

  lemma LastAdmission(limit: int, init: seq<RateLimiter.Request>, last: RateLimiter.Request, client: string, lo: real,
          hi: real)
    ensures var before := Windows.CountIn(RateLimiter.Admissions(limit, init, client), lo, hi);
      Windows.CountIn(RateLimiter.Admissions(limit, init + [last], client), lo, hi)
        == if last.client == client && RateLimiter.VerdictAfter(limit, init, last) == RateLimiter.Admitted
            && lo <= last.at <= hi
           then before + 1 else before
  {
    assert (init + [last])[..|init|] == init;
    CountAppend(RateLimiter.Admissions(limit, init, client), last.at, lo, hi);
  }

  /** Whatever clients write in the header, and whoever else sends requests by whatever
      way, at most `limit` requests of one real client, direct or through proxies, are
      admitted in any window of a minute. */
  lemma {:induction false} ForgeryBuysNothing(p: Parsers, networks: seq<Network>, limit: int, rs: seq<Request>,
          client: string, lo: real)
    requires InTime(rs)
    ensures Windows.CountIn(AdmissionsOf(p, networks, limit, rs, client), lo, lo + 60.0) <= RateLimiter.Ceiling(limit)
  {
    AdmissionsAreCounted(p, networks, limit, rs, client, lo, lo + RateLimiter.WINDOW);
    RateLimiter.AtMostLimit(limit, Keyed(p, networks, rs), client, lo);
  }

  // ------------------------------------------------------- clients that are trusted themselves

  /** Requests through trusted proxies that append only trusted hops, each with another
      forged address in front. */
  ghost predicate Forging(p: Parsers, networks: seq<Network>, rs: seq<Request>) {
    && (forall i | 0 <= i < |rs| :: ForgesAddress(p, networks, rs[i]))
    && (forall i, j | 0 <= i < j < |rs| :: rs[i].sent != rs[j].sent)
  }

  ghost predicate ForgesAddress(p: Parsers, networks: seq<Network>, r: Request) {
    && r.peer.Some? && Trusted(p, networks, r.peer.value) && RightmostUntrusted(p, networks, Parts(r.appended)).None?
    && r.sent.Some? && IsHop(r.sent.value) && !Trusted(p, networks, r.sent.value)
  }

  lemma {:induction false} NeverSeen(limit: int, run: seq<RateLimiter.Request>, client: string)
    requires forall i | 0 <= i < |run| :: run[i].client != client
    ensures RateLimiter.History(limit, run, client) == []
  {
    if run != [] {
      NeverSeen(limit, run[..|run| - 1], client);
    }
  }

  /** For such a client the bound does not hold: every request has a bucket of its own, so
      all of them are admitted, however many come in a minute. */
  lemma {:induction false} ForgeryEscapesLimit(p: Parsers, networks: seq<Network>, limit: int, rs: seq<Request>, k: nat)
    requires limit >= 1 && InTime(rs) && Forging(p, networks, rs) && k < |rs|
    ensures RateLimiter.VerdictAfter(limit, Keyed(p, networks, rs[..k]), Keyed(p, networks, rs)[k])
        == RateLimiter.Admitted
  {
    var run, r := Keyed(p, networks, rs[..k]), Keyed(p, networks, rs)[k];
    forall i | 0 <= i <= k ensures BucketKey(p, networks, rs[i]) == rs[i].sent.value {
      assert ForgesAddress(p, networks, rs[i]);
      ForgedHopTaken(p, networks, rs[i].peer.value, rs[i].sent.value, rs[i].appended);
    }
    forall i | 0 <= i < |run| ensures run[i].client != r.client {
      assert rs[..k][i] == rs[i] && rs[i].sent != rs[k].sent;
    }
    assert RateLimiter.InOrder(run) && RateLimiter.Follows(run, r);
    NeverSeen(limit, run, r.client);
    RateLimiter.DecidesAsRule(limit, run, r);
  }
}
