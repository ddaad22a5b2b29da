/** DNS messages as the engine sees them, and the pure classifiers of engine.go. */
module Dns {
  import opened Text

  /** Text of an address or a type: it never contains the bar that joins lookup keys. */
  type BarFree = s: string | '|' !in s witness ""
  type Mnemonic = s: BarFree | s != "A" && s != "AAAA" && s != "NS" && s != "CNAME" && s != "SOA" witness ""

  /** dns.TypeToString of a record type; a type the library does not know has the empty mnemonic. */
  datatype RRType = A | AAAA | NS | CNAME | SOA | Other(mnemonic: Mnemonic)
  {
    function Text(): (r: BarFree)
    {
      match this
      case A => "A"
      case AAAA => "AAAA"
      case NS => "NS"
      case CNAME => "CNAME"
      case SOA => "SOA"
      case Other(m) => m
    }
  }

  type QType = t: RRType | t.A? || t.AAAA? || t.NS? witness A

  datatype RData =
    | AData(addr: BarFree)
    | AAAAData(addr: BarFree)
    | NSData(target: string)
    | CNAMEData(target: string)
    | SOAData(text: string)
    | OtherData(mnemonic: Mnemonic, text: string)
  {
    function Type(): RRType {
      match this
      case AData(_) => A
      case AAAAData(_) => AAAA
      case NSData(_) => NS
      case CNAMEData(_) => CNAME
      case SOAData(_) => SOA
      case OtherData(m, _) => Other(m)
    }

    /** recordString */
    function Text(): string {
      match this
      case AData(addr) => addr
      case AAAAData(addr) => addr
      case NSData(target) => target
      case CNAMEData(target) => target
      case SOAData(text) => text
      case OtherData(_, text) => text
    }
  }

  datatype RR = RR(name: string, ttl: nat, data: RData)

  const NOERROR: nat := 0
  const SERVFAIL: nat := 2
  const NXDOMAIN: nat := 3
  const NOTIMP: nat := 4
  const REFUSED: nat := 5

  datatype Message = Message(
    rcode: nat, authoritative: bool, truncated: bool,
    answer: seq<RR>, authority: seq<RR>, additional: seq<RR>)

  predicate HasType(records: seq<RR>, qname: string, qtype: QType) {
    exists i :: 0 <= i < |records| && EqualFold(records[i].name, qname) && records[i].data.Type() == qtype
  }

  /** The target of the first CNAME record owned by qname, or the empty string. */
  function FirstCNAME(records: seq<RR>, qname: string): string {
    if records == [] then ""
    else if records[0].data.CNAMEData? && EqualFold(records[0].name, qname) then records[0].data.target
    else FirstCNAME(records[1..], qname)
  }

  predicate IsNODATA(m: Message) {
    && m.rcode == NOERROR && m.authoritative && m.answer == []
    && exists i :: 0 <= i < |m.authority| && m.authority[i].data.SOAData?
  }

  function NsNames(records: seq<RR>): seq<string> {
    if records == [] then []
    else
      var rest := NsNames(records[..|records| - 1]);
      var last := records[|records| - 1].data;
      if last.NSData? then rest + [last.target] else rest
  }

  /** The distinct NS targets of a section, in first-seen order. */
  function NsTargets(records: seq<RR>): seq<string> {
    FirstSeen(NsNames(records))
  }

  method NsTargetsLoop(records: seq<RR>) returns (targets: seq<string>)
    ensures targets == NsTargets(records)
  {
    targets := [];
    for i := 0 to |records|
      invariant targets == NsNames(records[..i])
    {
      assert records[..i + 1][..i] == records[..i];
      if records[i].data.NSData? {
        targets := targets + [records[i].data.target];
      }
    }
    assert records[..|records|] == records;
    targets := UniqueStrings(targets);
  }

  /** The A and AAAA texts of the records owned by name, in order. */
  function GlueFor(records: seq<RR>, name: string): seq<string> {
    if records == [] then []
    else
      var rest := GlueFor(records[..|records| - 1], name);
      var last := records[|records| - 1];
      if last.name == name && (last.data.AData? || last.data.AAAAData?) then rest + [last.data.Text()] else rest
  }

  /** The loop of glueAddrs: one map from owner name to address texts. */
  method GlueAddrs(records: seq<RR>) returns (glue: map<string, seq<string>>)
    ensures forall name :: name in glue <==> GlueFor(records, name) != []
    ensures forall name :: name in glue ==> glue[name] == GlueFor(records, name)
  {
    glue := map[];
    for i := 0 to |records|
      invariant forall name :: name in glue <==> GlueFor(records[..i], name) != []
      invariant forall name :: name in glue ==> glue[name] == GlueFor(records[..i], name)
    {
      assert records[..i + 1][..i] == records[..i];
      var rr := records[i];
      if rr.data.AData? || rr.data.AAAAData? {
        var addrs := if rr.name in glue then glue[rr.name] else [];
        glue := glue[rr.name := addrs + [rr.data.Text()]];
      }
    }
    assert records[..|records|] == records;
  }

  /** What it means to be glue for a name: an address record of the section owned by that name. */
  lemma {:induction false} GlueForMeaning(records: seq<RR>, name: string, ip: string)
    ensures ip in GlueFor(records, name) <==>
            exists i :: 0 <= i < |records| && records[i].name == name
                        && (records[i].data.AData? || records[i].data.AAAAData?) && records[i].data.Text() == ip
  {
    if records != [] {
      var front, last := records[..|records| - 1], records[|records| - 1];
      GlueForMeaning(front, name, ip);
      if ip in GlueFor(front, name) {
        var i :| 0 <= i < |front| && front[i].name == name
                 && (front[i].data.AData? || front[i].data.AAAAData?) && front[i].data.Text() == ip;
        assert records[i] == front[i];
      }
      if i :| 0 <= i < |records| && records[i].name == name
              && (records[i].data.AData? || records[i].data.AAAAData?) && records[i].data.Text() == ip
      {
        if i < |front| {
          assert front[i] == records[i];
        }
      }
    }
  }

  /** The owner of the first NS record: the zone a referral delegates. */
  function ReferralZone(records: seq<RR>): string {
    if records == [] then "."
    else if records[0].data.NSData? then records[0].name
    else ReferralZone(records[1..])
  }

  /** The zone of a referral is the owner of its first NS record, and the root when it has none. */
  lemma {:induction false} ReferralZoneMeaning(records: seq<RR>)
    ensures (forall i :: 0 <= i < |records| ==> !records[i].data.NSData?) ==> ReferralZone(records) == "."
    ensures forall i ::
              0 <= i < |records| && records[i].data.NSData? && (forall j :: 0 <= j < i ==> !records[j].data.NSData?)
              ==> ReferralZone(records) == records[i].name
  {
    if records != [] && !records[0].data.NSData? {
      var rest := records[1..];
      ReferralZoneMeaning(rest);
      assert forall i :: 0 <= i < |rest| ==> rest[i] == records[i + 1];
      forall i | 0 <= i < |records| && records[i].data.NSData? && forall j :: 0 <= j < i ==> !records[j].data.NSData?
        ensures ReferralZone(records) == records[i].name
      {
        assert rest[i - 1] == records[i];
      }
    }
  }

  lemma {:induction false} NsNamesMeaning(records: seq<RR>, name: string)
    ensures name in NsNames(records) <==> exists rr :: rr in records && rr.data == NSData(name)
  {
    if records != [] {
      var front, last := records[..|records| - 1], records[|records| - 1];
      NsNamesMeaning(front, name);
      assert forall rr :: rr in records <==> rr in front || rr == last;
    }
  }

  /** The nameservers listed are exactly the targets of the section's NS records. */
  lemma NsTargetsMeaning(records: seq<RR>, name: string)
    ensures name in NsTargets(records) <==> exists rr :: rr in records && rr.data == NSData(name)
  {
    FirstSeenIn(NsNames(records), name);
    NsNamesMeaning(records, name);
  }

  /** Record i is a CNAME record of the name, whatever its case. */
  predicate IsAlias(records: seq<RR>, qname: string, i: nat)
    requires i < |records|
  {
    records[i].data.CNAMEData? && EqualFold(records[i].name, qname)
  }

  lemma {:induction false} FirstCNAMEAt(records: seq<RR>, qname: string, i: nat)
    requires i < |records| && IsAlias(records, qname, i) && forall j: nat :: j < i ==> !IsAlias(records, qname, j)
    ensures FirstCNAME(records, qname) == records[i].data.target
  {
    hide EqualFold;
    if i > 0 {
      var rest := records[1..];
      assert !IsAlias(records, qname, 0);
      forall j: nat | j < i - 1 ensures !IsAlias(rest, qname, j) {
        assert !IsAlias(records, qname, j + 1);
      }
      FirstCNAMEAt(rest, qname, i - 1);
    }
  }

  lemma {:induction false} NoCNAME(records: seq<RR>, qname: string)
    requires forall i: nat :: i < |records| ==> !IsAlias(records, qname, i)
    ensures FirstCNAME(records, qname) == ""
  {
    hide EqualFold;
    if records != [] {
      var rest := records[1..];
      assert !IsAlias(records, qname, 0);
      forall i: nat | i < |rest| ensures !IsAlias(rest, qname, i) {
        assert !IsAlias(records, qname, i + 1);
      }
      NoCNAME(rest, qname);
    }
  }

  /** The alias is the target of the first CNAME record of the name, and empty when there is none. */
  lemma FirstCNAMEMeaning(records: seq<RR>, qname: string)
    ensures (forall i: nat :: i < |records| ==> !IsAlias(records, qname, i)) ==> FirstCNAME(records, qname) == ""
    ensures forall i: nat ::
              i < |records| && IsAlias(records, qname, i) && (forall j: nat :: j < i ==> !IsAlias(records, qname, j))
              ==> FirstCNAME(records, qname) == records[i].data.target
  {
    hide EqualFold, FirstCNAME;
    if forall i: nat :: i < |records| ==> !IsAlias(records, qname, i) {
      NoCNAME(records, qname);
    }
    forall i: nat
      | i < |records| && IsAlias(records, qname, i) && forall j: nat :: j < i ==> !IsAlias(records, qname, j)
      ensures FirstCNAME(records, qname) == records[i].data.target
    {
      FirstCNAMEAt(records, qname, i);
    }
  }

  /** An alias that was found stands in the section. */
  lemma {:induction false} FirstCNAMEFound(records: seq<RR>, qname: string)
    requires FirstCNAME(records, qname) != ""
    ensures exists rr :: rr in records && EqualFold(rr.name, qname) && rr.data == CNAMEData(FirstCNAME(records, qname))
  {
    if !(records[0].data.CNAMEData? && EqualFold(records[0].name, qname)) {
      FirstCNAMEFound(records[1..], qname);
      var rr :| rr in records[1..] && EqualFold(rr.name, qname) && rr.data == CNAMEData(FirstCNAME(records, qname));
      assert rr in records;
    }
  }
}
