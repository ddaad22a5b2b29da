/** Which client a request is attributed to (clientid.go). */
module ClientIdentity {
  import HeaderText
  import opened Text
  import opened Addresses
  import opened Forwarded

  datatype Source = RemoteAddr | FromForwarded | FromXForwardedFor

  datatype Disposition = Absent | Honored | UntrustedPeer | Malformed | Conflict | AllTrusted

  /** The rate-limit key: a canonical address, or the peer's text when that is not an address. */
  datatype Key = Address(addr: Addr) | Raw(text: string)

  datatype Identity = Identity(key: Key, source: Source, disposition: Disposition)

  /** What clientFromTrustedChain returns: no hop at all, the client, or nothing but trusted hops. */
  datatype Chain = NoHops | Client(addr: ParsedAddr) | OnlyTrusted

  type Trusted = seq<ValidPrefix>

  predicate Untrusted(hops: seq<ParsedAddr>, trusted: Trusted, i: nat)
    requires i < |hops|
  {
    !AddrIsTrusted(hops[i], trusted)
  }

  /** Reads hops from the right: each hop is skipped while it is trusted. */
  function ClientOf(hops: seq<ParsedAddr>, trusted: Trusted): (r: Chain)
    ensures r.Client? ==> r.addr in hops
  {
    if hops == [] then NoHops
    else
      var n := |hops| - 1;
      if Untrusted(hops, trusted, n) then Client(hops[n])
      else
        match ClientOf(hops[..n], trusted)
        case NoHops => OnlyTrusted
        case r => r
  }

  /** addrIsTrusted, as the loop over the configured prefixes. */
  method IsTrusted(addr: Addr, trusted: Trusted) returns (r: bool)
    ensures r == AddrIsTrusted(addr, trusted)
  {
    hide Canonicalize;
    if addr.Invalid? || |trusted| == 0 {
      return false;
    }
    var unmapped := addr.Unmap();
    for i := 0 to |trusted|
      invariant forall k :: 0 <= k < i ==> !Canonicalize(trusted[k]).Contains(unmapped)
    {
      if Canonicalize(trusted[i]).Contains(unmapped) {
        return true;
      }
    }
    return false;
  }

  /** clientFromTrustedChain, as the loop from the last hop down to the first. */
  method ClientFromTrustedChain(hops: seq<ParsedAddr>, trusted: Trusted) returns (r: Chain)
    ensures r == ClientOf(hops, trusted)
  {
    hide AddrIsTrusted;
    if |hops| == 0 {
      return NoHops;
    }
    var i := |hops|;
    assert hops[..i] == hops;
    while i > 0
      invariant 0 <= i <= |hops|
      invariant ClientOf(hops, trusted) == if i > 0 then ClientOf(hops[..i], trusted) else OnlyTrusted
    {
      i := i - 1;
      assert hops[..i + 1][..i] == hops[..i];
      var t := IsTrusted(hops[i], trusted);
      if !t {
        return Client(hops[i]);
      }
    }
    return OnlyTrusted;
  }

  ghost predicate IsRightmostUntrusted(hops: seq<ParsedAddr>, trusted: Trusted, i: nat) {
    i < |hops| && Untrusted(hops, trusted, i) && forall j: nat :: i < j < |hops| ==> !Untrusted(hops, trusted, j)
  }

  ghost predicate HasUntrusted(hops: seq<ParsedAddr>, trusted: Trusted) {
    exists i: nat :: i < |hops| && Untrusted(hops, trusted, i)
  }

  /** There is a client exactly when a hop is untrusted, and it is the rightmost such hop. */
  lemma {:induction false} ClientMeaning(hops: seq<ParsedAddr>, trusted: Trusted) returns (k: nat)
    ensures ClientOf(hops, trusted).NoHops? <==> hops == []
    ensures ClientOf(hops, trusted).Client? <==> HasUntrusted(hops, trusted)
    ensures HasUntrusted(hops, trusted)
            ==> IsRightmostUntrusted(hops, trusted, k) && ClientOf(hops, trusted) == Client(hops[k])
  {
    hide AddrIsTrusted;
    k := 0;
    if hops != [] {
      var n: nat := |hops| - 1;
      var rest := hops[..n];
      if Untrusted(hops, trusted, n) {
        k := n;
      } else {
        k := ClientMeaning(rest, trusted);
        assert forall i: nat :: i < n ==> Untrusted(hops, trusted, i) == Untrusted(rest, trusted, i);
      }
    }
  }

  /** Hops put in front of a chain that has an untrusted hop change nothing. */
  lemma {:induction false} PrependingChangesNothing(before: seq<ParsedAddr>, hops: seq<ParsedAddr>, trusted: Trusted)
    requires ClientOf(hops, trusted).Client?
    ensures ClientOf(before + hops, trusted) == ClientOf(hops, trusted)
  {
    var n, all := |hops| - 1, before + hops;
    assert all[|all| - 1] == hops[n] && all[..|all| - 1] == before + hops[..n];
    if !Untrusted(hops, trusted, n) {
      PrependingChangesNothing(before, hops[..n], trusted);
    }
  }

  /** peerIdentity: the peer's address, if it has one, and its key. */
  function PeerAddr(lib: Lib, remote: string): (r: Option<ParsedAddr>)
  {
    match lib.splitHostPort(remote)
    case Some(host) => ParseIPHop(lib, host)
    case None => ParseIPHop(lib, remote)
  }

  function PeerKey(lib: Lib, remote: string): Key {
    match PeerAddr(lib, remote)
    case Some(a) => Address(a.Unmap())
    case None => Raw(remote)
  }

  /** The field lines of the two headers. */
  datatype Request = Request(remote: string, forwarded: seq<string>, xForwardedFor: seq<string>)
  {
    function Lines(h: Header): seq<string> {
      if h.ForwardedHeader? then forwarded else xForwardedFor
    }
  }

  /** resolveClientIdentity */
  method ResolveClientIdentity(lib: Lib, req: Request, trusted: Trusted) returns (id: Identity)
    ensures id == Resolve(lib, req, trusted)
  {
    hide AddrIsTrusted, ParseHeader, ClientOf;
    var peer := PeerAddr(lib, req.remote);
    var key := PeerKey(lib, req.remote);
    if |req.forwarded| == 0 && |req.xForwardedFor| == 0 {
      return Identity(key, RemoteAddr, Absent);
    }
    var peerTrusted := false;
    if peer.Some? {
      peerTrusted := IsTrusted(peer.value, trusted);
    }
    if !peerTrusted {
      return Identity(key, RemoteAddr, UntrustedPeer);
    }
    var fHops := ParseForwardedForAddrs(lib, req.forwarded);
    var xHops := ParseXForwardedForAddrs(lib, req.xForwardedFor);
    if fHops.None? || xHops.None? {
      return Identity(key, RemoteAddr, Malformed);
    }
    var f := ClientFromTrustedChain(fHops.value, trusted);
    var x := ClientFromTrustedChain(xHops.value, trusted);
    if f.Client? && x.Client? && f.addr != x.addr {
      return Identity(key, RemoteAddr, Conflict);
    } else if x.Client? {
      return Identity(Address(x.addr.Unmap()), FromXForwardedFor, Honored);
    } else if f.Client? {
      return Identity(Address(f.addr.Unmap()), FromForwarded, Honored);
    } else if f.OnlyTrusted? || x.OnlyTrusted? {
      return Identity(key, RemoteAddr, AllTrusted);
    } else {
      return Identity(key, RemoteAddr, Malformed);
    }
  }

  /** The peer is an address that the configuration trusts. */
  ghost predicate PeerTrusted(lib: Lib, req: Request, trusted: Trusted) {
    var peer := PeerAddr(lib, req.remote);
    peer.Some? && AddrIsTrusted(peer.value, trusted)
  }

  /** What one header says, or None when it is malformed. */
  ghost function ChainOf(lib: Lib, req: Request, trusted: Trusted, h: Header): Option<Chain> {
    match ParseHeader(lib, h, req.Lines(h))
    case None => None
    case Some(hops) => Some(ClientOf(hops, trusted))
  }

  ghost function Decide(key: Key, absent: bool, peerTrusted: bool, forwarded: Option<Chain>,
                        xForwardedFor: Option<Chain>): Identity {
    if absent then Identity(key, RemoteAddr, Absent)
    else if !peerTrusted then Identity(key, RemoteAddr, UntrustedPeer)
    else
      match (forwarded, xForwardedFor)
      case (Some(Client(f)), Some(Client(x))) =>
        if f == x then Identity(Address(x), FromXForwardedFor, Honored) else Identity(key, RemoteAddr, Conflict)
      case (Some(_), Some(Client(x))) => Identity(Address(x), FromXForwardedFor, Honored)
      case (Some(Client(f)), Some(_)) => Identity(Address(f), FromForwarded, Honored)
      case (Some(NoHops), Some(NoHops)) => Identity(key, RemoteAddr, Malformed)
      case (Some(_), Some(_)) => Identity(key, RemoteAddr, AllTrusted)
      case _ => Identity(key, RemoteAddr, Malformed)
  }

  ghost function Resolve(lib: Lib, req: Request, trusted: Trusted): Identity {
    Decide(PeerKey(lib, req.remote), req.forwarded == [] && req.xForwardedFor == [], PeerTrusted(lib, req, trusted),
           ChainOf(lib, req, trusted, ForwardedHeader), ChainOf(lib, req, trusted, XForwardedFor))
  }

  // ---- What the choice guarantees ----

  /** The client that a well-formed header names: its rightmost untrusted hop. */
  ghost predicate Names(lib: Lib, req: Request, trusted: Trusted, h: Header, a: Addr) {
    var hops := ParseHeader(lib, h, req.Lines(h));
    hops.Some? && exists i: nat :: IsRightmostUntrusted(hops.value, trusted, i) && hops.value[i] == a
  }

  ghost predicate WellFormed(lib: Lib, req: Request, h: Header) {
    ParseHeader(lib, h, req.Lines(h)).Some?
  }

  lemma NamesMeaning(lib: Lib, req: Request, trusted: Trusted, h: Header)
    ensures var c := ChainOf(lib, req, trusted, h);
            && (c.Some? <==> WellFormed(lib, req, h))
            && (req.Lines(h) == [] ==> c == Some(NoHops))
            && forall a :: Names(lib, req, trusted, h, a) <==> c.Some? && c.value.Client? && c.value.addr == a
  {
    assert req.Lines(h) == [] ==> ParseHeader(lib, h, req.Lines(h)) == Some([]);
    hide Untrusted, ParseHeader;
    var hops := ParseHeader(lib, h, req.Lines(h));
    if hops.Some? {
      var k := ClientMeaning(hops.value, trusted);
      forall i: nat | IsRightmostUntrusted(hops.value, trusted, i) ensures i == k {
        assert HasUntrusted(hops.value, trusted);
      }
    }
  }

  /**
   * A header is believed exactly when the peer is trusted, both headers are well formed, one of them names a client and
   * they do not name two different ones. The address is then the rightmost untrusted hop of the header that Source
   * names, X-Forwarded-For before Forwarded. In every other case it is the peer's own key.
   */
  lemma ClientChoice(lib: Lib, req: Request, trusted: Trusted)
    ensures var id := Resolve(lib, req, trusted);
            && (id.source.RemoteAddr? ==> id.key == PeerKey(lib, req.remote) && !id.disposition.Honored?)
            && (!id.source.RemoteAddr? <==>
                  && PeerTrusted(lib, req, trusted)
                  && WellFormed(lib, req, ForwardedHeader) && WellFormed(lib, req, XForwardedFor)
                  && (exists h, a :: Names(lib, req, trusted, h, a))
                  && (forall a, b ::
                        Names(lib, req, trusted, ForwardedHeader, a) && Names(lib, req, trusted, XForwardedFor, b)
                        ==> a == b))
            && (id.source.FromXForwardedFor? ==>
                  id.key.Address? && Names(lib, req, trusted, XForwardedFor, id.key.addr))
            && (id.source.FromForwarded? ==>
                  && id.key.Address? && Names(lib, req, trusted, ForwardedHeader, id.key.addr)
                  && forall a :: !Names(lib, req, trusted, XForwardedFor, a))
  {
    hide Names, ChainOf, PeerKey, PeerTrusted, WellFormed;
    NamesMeaning(lib, req, trusted, ForwardedHeader);
    NamesMeaning(lib, req, trusted, XForwardedFor);
    var f, x := ChainOf(lib, req, trusted, ForwardedHeader), ChainOf(lib, req, trusted, XForwardedFor);
    assert f.Some? && f.value.Client? ==> Names(lib, req, trusted, ForwardedHeader, f.value.addr);
    assert x.Some? && x.value.Client? ==> Names(lib, req, trusted, XForwardedFor, x.value.addr);
    if !Resolve(lib, req, trusted).source.RemoteAddr? {
      assert exists h, a :: Names(lib, req, trusted, h, a);
    } else if exists h, a :: Names(lib, req, trusted, h, a) {
      var h, a :| Names(lib, req, trusted, h, a);
      assert h == ForwardedHeader || h == XForwardedFor;
    }
  }

  /**
   * Field lines put in front of a header that already names a client change nothing: a client cannot speak for its
   * proxies.
   */
  lemma LinesInFrontChangeNothing(lib: Lib, req: Request, trusted: Trusted, extra: seq<string>, h: Header)
    requires ParseHeader(lib, h, extra).Some? && exists a :: Names(lib, req, trusted, h, a)
    ensures var longer := if h.ForwardedHeader? then req.(forwarded := extra + req.forwarded)
                          else req.(xForwardedFor := extra + req.xForwardedFor);
            Resolve(lib, longer, trusted) == Resolve(lib, req, trusted)
  {
    hide Names, ParseHeader, PeerKey, PeerAddr, AddrIsTrusted, ClientOf, Decide;
    LinesInFront(lib, h, extra, req.Lines(h));
    NamesMeaning(lib, req, trusted, h);
    PrependingChangesNothing(ParseHeader(lib, h, extra).value, ParseHeader(lib, h, req.Lines(h)).value, trusted);
  }

  /** A header whose field lines arrive combined into one names the same client. */
  lemma CombinedLinesSameClient(lib: Lib, req: Request, trusted: Trusted)
    requires Balanced(req.forwarded)
    ensures Resolve(lib, Request(req.remote, Combined(req.forwarded), Combined(req.xForwardedFor)), trusted)
            == Resolve(lib, req, trusted)
  {
    if req.forwarded != [] {
      JoinedParts(ForwardedHeader, req.forwarded);
    }
    if req.xForwardedFor != [] {
      JoinedParts(XForwardedFor, req.xForwardedFor);
    }
    hide Parts, HopsOf, HeaderText.Join, ClientOf, Decide, PeerKey, PeerAddr, AddrIsTrusted, Balanced;
  }

  function Combined(lines: seq<string>): seq<string> {
    if lines == [] then [] else [HeaderText.Join(lines, ',')]
  }

  lemma {:induction false} ClientOfCanonical(hops: seq<ParsedAddr>, trusted: Trusted)
    ensures ClientOf(hops, CanonicalizeAll(trusted)) == ClientOf(hops, trusted)
  {
    hide AddrIsTrusted;
    if hops != [] {
      TrustUnchanged(hops[|hops| - 1], trusted);
      ClientOfCanonical(hops[..|hops| - 1], trusted);
    }
  }

  /** Canonicalising the configured prefixes in advance changes nothing. */
  lemma CanonicalTrustSameClient(lib: Lib, req: Request, trusted: Trusted)
    ensures Resolve(lib, req, CanonicalizeAll(trusted)) == Resolve(lib, req, trusted)
  {
    hide AddrIsTrusted, ParseHeader, ClientOf, PeerAddr, CanonicalizeAll, Decide;
    var f, x := ParseHeader(lib, ForwardedHeader, req.forwarded), ParseHeader(lib, XForwardedFor, req.xForwardedFor);
    if f.Some? {
      ClientOfCanonical(f.value, trusted);
    }
    if x.Some? {
      ClientOfCanonical(x.value, trusted);
    }
    var peer := PeerAddr(lib, req.remote);
    if peer.Some? {
      TrustUnchanged(peer.value, trusted);
    }
  }

  // ---- The peer, and headers that are not believed ----

  /** The peer's address is what its text writes, with the port taken off if there is one. */
  lemma PeerKeyExactlyWhen(lib: Lib, remote: string, a: ParsedAddr)
    ensures var host := if lib.splitHostPort(remote).Some? then lib.splitHostPort(remote).value else remote;
            && (ParseIPHop(lib, host) == Some(a) ==>
                  PeerAddr(lib, remote) == Some(a) && PeerKey(lib, remote) == Address(a))
            && (ParseIPHop(lib, host).None? ==> PeerAddr(lib, remote).None? && PeerKey(lib, remote) == Raw(remote))
  {
    hide ParseIPHop;
  }

  /** A header has at least one hop, all of them trusted. */
  ghost predicate AllHopsTrusted(lib: Lib, req: Request, trusted: Trusted, h: Header) {
    var hops := ParseHeader(lib, h, req.Lines(h));
    hops.Some? && hops.value != [] && forall i :: 0 <= i < |hops.value| ==> AddrIsTrusted(hops.value[i], trusted)
  }

  lemma AllTrustedMeaning(lib: Lib, req: Request, trusted: Trusted, h: Header)
    ensures ChainOf(lib, req, trusted, h) == Some(OnlyTrusted) <==> AllHopsTrusted(lib, req, trusted, h)
  {
    hide ParseHeader, AddrIsTrusted;
    var hops := ParseHeader(lib, h, req.Lines(h));
    if hops.Some? {
      var k := ClientMeaning(hops.value, trusted);
      if HasUntrusted(hops.value, trusted) {
        assert !AddrIsTrusted(hops.value[k], trusted);
      } else {
        forall i: nat | i < |hops.value| ensures AddrIsTrusted(hops.value[i], trusted) {
          assert !Untrusted(hops.value, trusted, i);
        }
      }
    }
  }

  /** The two headers name different clients. */
  ghost predicate NamesDiffer(lib: Lib, req: Request, trusted: Trusted) {
    exists a, b ::
      Names(lib, req, trusted, ForwardedHeader, a) && Names(lib, req, trusted, XForwardedFor, b) && a != b
  }

  /**
   * Which disposition a request gets. Absent without header lines; untrusted peer if there are some and the peer is not
   * trusted; malformed if a header is malformed, or there are lines and yet no hop in either; conflict if the headers
   * name different clients; all trusted if neither names a client and one has hops; and honored otherwise.
   */
  lemma DispositionExactlyWhen(lib: Lib, req: Request, trusted: Trusted)
    ensures var d := Resolve(lib, req, trusted).disposition;
            var lines := req.forwarded != [] || req.xForwardedFor != [];
            var wellFormed := WellFormed(lib, req, ForwardedHeader) && WellFormed(lib, req, XForwardedFor);
            var named := exists h, a :: Names(lib, req, trusted, h, a);
            var trustedHops := exists h :: AllHopsTrusted(lib, req, trusted, h);
            && (d.Absent? <==> !lines)
            && (d.UntrustedPeer? <==> lines && !PeerTrusted(lib, req, trusted))
            && (lines && PeerTrusted(lib, req, trusted) ==>
                  && (d.Malformed? <==> !wellFormed || (!named && !trustedHops))
                  && (d.Conflict? <==> wellFormed && NamesDiffer(lib, req, trusted))
                  && (d.AllTrusted? <==> wellFormed && !named && trustedHops)
                  && (d.Honored? <==> wellFormed && named && !NamesDiffer(lib, req, trusted)))
  {
    hide Names, ChainOf, PeerKey, PeerTrusted, WellFormed, AllHopsTrusted;
    NamesMeaning(lib, req, trusted, ForwardedHeader);
    NamesMeaning(lib, req, trusted, XForwardedFor);
    AllTrustedMeaning(lib, req, trusted, ForwardedHeader);
    AllTrustedMeaning(lib, req, trusted, XForwardedFor);
    var f, x := ChainOf(lib, req, trusted, ForwardedHeader), ChainOf(lib, req, trusted, XForwardedFor);
    assert f.Some? && f.value.Client? ==> Names(lib, req, trusted, ForwardedHeader, f.value.addr);
    assert x.Some? && x.value.Client? ==> Names(lib, req, trusted, XForwardedFor, x.value.addr);
    assert f == Some(OnlyTrusted) ==> AllHopsTrusted(lib, req, trusted, ForwardedHeader);
    assert x == Some(OnlyTrusted) ==> AllHopsTrusted(lib, req, trusted, XForwardedFor);
    if h, a :| Names(lib, req, trusted, h, a) {
      assert h == ForwardedHeader || h == XForwardedFor;
    }
    if h :| AllHopsTrusted(lib, req, trusted, h) {
      assert h == ForwardedHeader || h == XForwardedFor;
    }
  }
}
