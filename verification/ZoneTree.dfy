/**
 * A finite zone tree, the lookup of a name in it, and what its servers answer (sections 3.6.2, 4.2.1 and 5.3.3 of RFC
 * 1034).
 */
module ZoneTree {
  import opened Text
  import opened Dns
  import opened Rrsets

  /**
   * What a zone itself holds for a name and type: records, an alias, an existing name without data, or no such name.
   */
  datatype Local = Records(data: seq<RData>) | Alias(target: string) | Empty | NoName

  datatype NameServer = NameServer(name: string, ip: BarFree, v6: bool)

  /** glued: whether a referral to the zone carries the addresses of its servers. */
  datatype Zone = Zone(origin: string, servers: seq<NameServer>, cuts: seq<Zone>, glued: bool,
                       local: (string, QType) -> Local)

  const TTL: nat := 300

  predicate Covers(origin: string, qname: string) {
    || origin == "." || EqualFold(origin, qname)
    || (|origin| < |qname| && EqualFold("." + origin, qname[|qname| - |origin| - 1..]))
  }

  /** The delegation of the zone that a name falls under, if any. */
  function FindCut(cuts: seq<Zone>, qname: string): (r: Option<Zone>)
    ensures r.Some? ==> r.value in cuts
  {
    if cuts == [] then None
    else if Covers(cuts[0].origin, qname) then Some(cuts[0])
    else FindCut(cuts[1..], qname)
  }

  /** The zone that is authoritative for a name. */
  function Authority(zone: Zone, qname: string): Zone {
    match FindCut(zone.cuts, qname)
    case Some(child) => Authority(child, qname)
    case None => zone
  }

  /** The number of zones on the way from the given zone to the authority, both included. */
  function Depth(zone: Zone, qname: string): (n: nat)
    ensures n >= 1
  {
    match FindCut(zone.cuts, qname)
    case Some(child) => 1 + Depth(child, qname)
    case None => 1
  }

  /** The nameserver to look up before a zone without glue can be asked. */
  function UngluedAt(child: Zone): seq<string> {
    if child.glued || child.servers == [] then [] else [child.servers[0].name]
  }

  /** The nameservers to look up on that way. */
  function Unglued(zone: Zone, qname: string): seq<string> {
    match FindCut(zone.cuts, qname)
    case Some(child) => UngluedAt(child) + Unglued(child, qname)
    case None => []
  }

  /** What is found for a name, in how many steps, and which nameservers are looked up on the way. */
  datatype Resolved = Resolved(name: string, local: Local, steps: nat, unglued: seq<string>)

  /**
   * The direct lookup: read the authority's data, and start over at the root for an alias. Nothing is found when the
   * steps exceed the budget or an alias leads back to a name already looked up.
   */
  function Resolve(root: Zone, qname: string, qtype: QType, budget: nat, seen: set<string>): Option<Resolved>
    decreases budget
  {
    var depth := Depth(root, qname);
    if qname in seen || depth > budget then None
    else
      match Authority(root, qname).local(qname, qtype)
      case Alias(target) =>
        var rest := Resolve(root, target, qtype, budget - depth, seen + {qname});
        AddSteps(depth, Unglued(root, qname), rest)
      case local => Some(Resolved(qname, local, depth, Unglued(root, qname)))
  }

  function AddSteps(steps: nat, unglued: seq<string>, r: Option<Resolved>): Option<Resolved> {
    match r
    case None => None
    case Some(w) => Some(w.(steps := steps + w.steps, unglued := unglued + w.unglued))
  }

  /** The lookup one zone at a time, from the given zone on. */
  function Walk(root: Zone, zone: Zone, qname: string, qtype: QType, budget: nat, seen: set<string>): Option<Resolved>
    decreases budget
  {
    if qname in seen || budget == 0 then None
    else
      match FindCut(zone.cuts, qname)
      case Some(child) =>
        AddSteps(1, UngluedAt(child), Walk(root, child, qname, qtype, budget - 1, seen))
      case None =>
        match zone.local(qname, qtype)
        case Alias(target) => AddSteps(1, [], Walk(root, root, target, qtype, budget - 1, seen + {qname}))
        case local => Some(Resolved(qname, local, 1, []))
  }

  lemma AddStepsTwice(m: nat, a: seq<string>, n: nat, b: seq<string>, r: Option<Resolved>)
    ensures AddSteps(m, a, AddSteps(n, b, r)) == AddSteps(m + n, a + b, r)
  {
    if r.Some? {
      assert a + (b + r.value.unglued) == a + b + r.value.unglued;
    }
  }

  /** Walking zone by zone finds what the direct lookup finds. */
  lemma {:induction false} WalkIsResolve(root: Zone, qname: string, qtype: QType, budget: nat, seen: set<string>)
    ensures Walk(root, root, qname, qtype, budget, seen) == Resolve(root, qname, qtype, budget, seen)
    decreases budget, Depth(root, qname) + 1
  {
    if qname !in seen {
      WalkDown(root, root, qname, qtype, budget, seen);
    }
  }

  lemma {:induction false} WalkDown(root: Zone, zone: Zone, qname: string, qtype: QType, budget: nat, seen: set<string>)
    requires qname !in seen
    ensures var depth := Depth(zone, qname);
            Walk(root, zone, qname, qtype, budget, seen) ==
            if depth > budget then None
            else
              match Authority(zone, qname).local(qname, qtype)
              case Alias(target) =>
                var rest := Resolve(root, target, qtype, budget - depth, seen + {qname});
                AddSteps(depth, Unglued(zone, qname), rest)
              case local => Some(Resolved(qname, local, depth, Unglued(zone, qname)))
    decreases budget, Depth(zone, qname)
  {
    hide FindCut;
    if budget > 0 {
      match FindCut(zone.cuts, qname)
      case Some(child) =>
        WalkDown(root, child, qname, qtype, budget - 1, seen);
        var local, depth := Authority(child, qname).local(qname, qtype), Depth(child, qname);
        if local.Alias? && depth <= budget - 1 {
          AddStepsTwice(1, UngluedAt(child), depth, Unglued(child, qname),
                        Resolve(root, local.target, qtype, budget - 1 - depth, seen + {qname}));
        }
      case None =>
        var local := zone.local(qname, qtype);
        if local.Alias? {
          WalkIsResolve(root, local.target, qtype, budget - 1, seen + {qname});
        }
    }
  }

  function Owned(name: string, data: seq<RData>): (r: seq<RR>)
    ensures |r| == |data| && forall i :: 0 <= i < |r| ==> r[i] == RR(name, TTL, data[i])
  {
    seq(|data|, i requires 0 <= i < |data| => RR(name, TTL, data[i]))
  }

  function NsRecords(zone: Zone): (r: seq<RR>)
    ensures |r| == |zone.servers|
    ensures forall i :: 0 <= i < |r| ==> r[i] == RR(zone.origin, TTL, NSData(zone.servers[i].name))
  {
    seq(|zone.servers|, i requires 0 <= i < |zone.servers| => RR(zone.origin, TTL, NSData(zone.servers[i].name)))
  }

  function GlueData(s: NameServer): RData {
    if s.v6 then AAAAData(s.ip) else AData(s.ip)
  }

  function GlueRecords(zone: Zone): (r: seq<RR>)
    ensures |r| == |zone.servers|
    ensures forall i :: 0 <= i < |r| ==> r[i] == RR(zone.servers[i].name, TTL, GlueData(zone.servers[i]))
  {
    seq(|zone.servers|, i requires 0 <= i < |zone.servers| => RR(zone.servers[i].name, TTL, GlueData(zone.servers[i])))
  }

  /** What a server of the zone answers: a referral below a cut, with the glue there is, and its own data elsewhere. */
  function Respond(zone: Zone, qname: string, qtype: QType): Message {
    match FindCut(zone.cuts, qname)
    case Some(child) =>
      Message(NOERROR, false, false, [], NsRecords(child), if child.glued then GlueRecords(child) else [])
    case None =>
      match zone.local(qname, qtype)
      case Records(data) => Message(NOERROR, true, false, Owned(qname, data), [], [])
      case Alias(target) => Message(NOERROR, true, false, Owned(qname, [CNAMEData(target)]), [], [])
      case Empty => Message(NOERROR, true, false, [], [RR(zone.origin, TTL, SOAData(""))], [])
      case NoName => Message(NXDOMAIN, true, false, [], [RR(zone.origin, TTL, SOAData(""))], [])
  }

  /** The data a zone holds makes sense: records exist and have the type asked for, aliases have a target. */
  ghost predicate Sensible(zone: Zone) {
    && (forall qname, qtype :: SensibleData(zone.local(qname, qtype), qtype))
    && forall i :: 0 <= i < |zone.cuts| ==> Sensible(zone.cuts[i])
  }

  predicate SensibleData(local: Local, qtype: QType) {
    match local
    case Records(data) => data != [] && forall i :: 0 <= i < |data| ==> data[i].Type() == qtype
    case Alias(target) => target != ""
    case _ => true
  }

  function Texts(data: seq<RData>): seq<string> {
    seq(|data|, i requires 0 <= i < |data| => data[i].Text())
  }

  lemma {:induction false} OneKey(keys: seq<Key>, key: Key)
    requires keys != [] && forall i :: 0 <= i < |keys| ==> keys[i] == key
    ensures FirstSeen(keys) == [key]
  {
    if |keys| > 1 {
      OneKey(keys[..|keys| - 1], key);
    } else {
      assert FirstSeen(keys[..0]) == [];
    }
  }

  lemma {:induction false} OneKeyData(name: string, data: seq<RData>, rtype: RRType)
    requires forall i :: 0 <= i < |data| ==> data[i].Type() == rtype
    ensures DataFor(Owned(name, data), (name, rtype)) == Texts(data)
  {
    if data != [] {
      var n := |data| - 1;
      OneKeyData(name, data[..n], rtype);
      assert Owned(name, data)[..n] == Owned(name, data[..n]);
    }
  }

  /** The records of one name and type form a single RRset with all their texts in order. */
  lemma OneSet(name: string, data: seq<RData>, rtype: RRType)
    requires data != [] && forall i :: 0 <= i < |data| ==> data[i].Type() == rtype
    ensures RrsetsOf(AnswerSection, Owned(name, data)) == [RRset(AnswerSection, name, rtype, TTL, Texts(data))]
  {
    OneKey(Keys(Owned(name, data)), (name, rtype));
    OneKeyData(name, data, rtype);
  }
}
