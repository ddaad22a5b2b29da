/** A network with a cut that has no glue, on which resolution is correct. */
module ZoneExample {
  import opened Text
  import opened Dns
  import opened Rrsets
  import opened TraceSpec
  import opened ZoneTree
  import opened ZoneTrace

  const ROOT_IP: BarFree := "198.51.100.1"
  const NS_IP: BarFree := "192.0.2.1"
  const ADDRESS: BarFree := "203.0.113.1"

  function RootData(qname: string, qtype: QType): Local {
    if qname == "ns." && qtype == A then Records([AData(NS_IP)]) else NoName
  }

  function ChildData(qname: string, qtype: QType): Local {
    if qtype == A then Records([AData(ADDRESS)]) else Empty
  }

  /** The zone x. is served by ns., a name of the root zone, and referrals to it carry no address. */
  const CHILD := Zone("x.", [NameServer("ns.", NS_IP, false)], [], false, ChildData)
  const ROOT := Zone(".", [], [CHILD], true, RootData)

  function Answering(n: nat, endpoint: string, qname: string, qtype: QType): Wire {
    Reply(ZoneTree.Respond(if endpoint == NS_IP then CHILD else ROOT, qname, qtype))
  }

  const CONFIG := Config(2, 3, [Server("root.", ROOT_IP, ROOT_IP, ".")], ip => true, ip => ip, Answering, Answering)

  lemma Cuts()
    ensures FindCut(ROOT.cuts, "x.") == Some(CHILD) && FindCut(ROOT.cuts, "ns.") == None
    ensures FindCut(CHILD.cuts, "x.") == None
  {
    EqualFoldExactlyWhen("x.", "x.");
    EqualFoldExactlyWhen("x.", "ns.");
    EqualFoldExactlyWhen(".x.", "ns.");
    assert "." + "x." == ".x." && "ns."[0..] == "ns.";
    assert ROOT.cuts[1..] == [];
    hide EqualFold;
    assert !SameLetter(".x."[0], "ns."[0]);
  }

  lemma ServersAnswer()
    ensures Serves(CONFIG, ROOT_IP, ROOT) && Serves(CONFIG, NS_IP, CHILD) && ROOT_IP != NS_IP
  {
    assert ROOT_IP[2] == '8' && NS_IP[2] == '2';
    RepliesAreWholeForAll();
    hide ZoneTree.Respond;
  }

  lemma RepliesAreWholeForAll()
    ensures forall zone, qname, qtype :: !ZoneTree.Respond(zone, qname, qtype).truncated
  {
    forall zone, qname, qtype ensures !ZoneTree.Respond(zone, qname, qtype).truncated {
      RepliesAreWhole(zone, qname, qtype);
    }
  }

  lemma NameServerResolves()
    ensures NameResolves(CONFIG, ROOT, CHILD)
  {
    Cuts();
    hide FindCut;
    assert Texts([AData(NS_IP)]) == [NS_IP] == IpsOf(CHILD);
    assert "ns."[..2] + "." == "ns.";
  }

  lemma ChildIsReachable()
    ensures Reachable(CONFIG, ROOT, CHILD, RootAddresses(CONFIG))
  {
    ServersAnswer();
    NameServerResolves();
    hide Serves, NameResolves;
    assert CHILD.servers[0].ip == NS_IP;
    assert RootAddresses(CONFIG) == {ROOT_IP};
    assert Addresses(CHILD) == {NS_IP};
  }

  lemma ExampleIsSensible()
    ensures Sensible(ROOT)
  {
    assert Sensible(CHILD);
  }

  lemma ExampleNetwork()
    ensures Network(CONFIG, ROOT)
  {
    ExampleIsSensible();
    ServersAnswer();
    ChildIsReachable();
    hide Serves, Reachable, Sensible, RootAddresses, Addresses;
    assert CONFIG.allow(CONFIG.roots[0].ip);
    assert forall r :: r in CONFIG.roots ==> r == CONFIG.roots[0];
    assert forall i :: 0 <= i < |ROOT.cuts| ==> ROOT.cuts[i] == CHILD;
    assert Deployed(CONFIG, ROOT, CHILD, RootAddresses(CONFIG) + Addresses(CHILD));
    assert Deployed(CONFIG, ROOT, ROOT, RootAddresses(CONFIG));
  }

  lemma ExampleResolves()
    ensures Resolve(ROOT, "x.", A, 2, {}) == Some(Resolved("x.", Records([AData(ADDRESS)]), 2, ["ns."]))
    ensures SupportSteps(ROOT, ["ns."]) == 1 && Fqdn("x") == "x."
  {
    Cuts();
    hide FindCut;
    assert Depth(CHILD, "x.") == 1 && Depth(ROOT, "ns.") == 1;
    assert Unglued(CHILD, "x.") == [] && UngluedAt(CHILD) == ["ns."];
    assert Depth(ROOT, "x.") == 2 && Unglued(ROOT, "x.") == ["ns."] + [] == ["ns."];
    assert Authority(CHILD, "x.") == CHILD && Authority(ROOT, "x.") == CHILD;
    assert CHILD.local("x.", A) == Records([AData(ADDRESS)]);
    assert ["ns."][1..] == [] && "x" + "." == "x.";
  }

  /**
   * The lookup of x. from the root of this network takes three queries, one of them for the address of ns., and ends
   * with the address that the child zone holds.
   */
  lemma GluelessIsResolved()
    ensures var r := Trace(CONFIG, "x", A);
            && r.outcome.kind == Success && |r.st.hops| == r.st.queries == 3
            && r.st.hops[2].answer == [RRset(AnswerSection, "x.", A, TTL, [ADDRESS])]
  {
    ExampleNetwork();
    ExampleResolves();
    hide Resolve, Network, Trace, SupportSteps;
    ResolutionIsCorrect(CONFIG, ROOT, "x", A, 2);
    assert Texts([AData(ADDRESS)]) == [ADDRESS];
  }
}
