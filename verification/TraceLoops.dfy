/** LOOP hops: the visited key stands for the question, and a LOOP hop repeats a question really asked before. */
module TraceLoops {
  import opened Text
  import opened Dns
  import opened Rrsets
  import opened TraceSpec
  import opened TraceLedger
  import opened TraceProvenance

  lemma BarFreeHead(a: BarFree, b: string, c: BarFree, d: string)
    requires a + "|" + b == c + "|" + d
    ensures a == c && b == d
  {
    var s := a + "|" + b;
    assert s[|a|] == '|' && s[|c|] == '|';
    assert forall i :: 0 <= i < |a| ==> s[i] == a[i];
    assert forall i :: 0 <= i < |c| ==> s[i] == c[i];
    assert |a| == |c|;
    assert a == s[..|a|] == c;
    assert b == s[|a| + 1..] == d;
  }

  lemma QTypeTextInjective(t: RRType, u: RRType)
    requires t.Text() == u.Text()
    ensures t == u
  {}

  lemma PurposeTextInjective(p: Purpose, q: Purpose)
    requires PurposeText(p) == PurposeText(q)
    ensures p == q
  {}

  function JoinedKey(ip: string, qname: string, qtype: BarFree, purpose: BarFree): string {
    ip + "|" + (qname + "|" + (qtype + "|" + purpose))
  }

  /** The bar-joined key is injective although the name in it may contain bars, as the other three parts do not. */
  lemma JoinedKeyInjective(ip: BarFree, qname: string, qtype: BarFree, purpose: BarFree,
                           ip': BarFree, qname': string, qtype': BarFree, purpose': BarFree)
    requires JoinedKey(ip, qname, qtype, purpose) == JoinedKey(ip', qname', qtype', purpose')
    ensures ip == ip' && qname == qname' && qtype == qtype' && purpose == purpose'
  {
    BarFreeHead(ip, qname + "|" + (qtype + "|" + purpose), ip', qname' + "|" + (qtype' + "|" + purpose'));
    var left, left' := qname + "|" + qtype, qname' + "|" + qtype';
    assert qname + "|" + (qtype + "|" + purpose) == left + "|" + purpose;
    assert qname' + "|" + (qtype' + "|" + purpose') == left' + "|" + purpose';
    BarFreeTail(left, purpose, left', purpose');
    BarFreeTail(qname, qtype, qname', qtype');
  }

  lemma KeyMeansQuestion(s: Sent, h: Hop)
    requires SentKey(s) == HopKey(h) && '|' !in s.server.ip && '|' !in h.serverIP
    ensures s.server.ip == h.serverIP && s.qname == h.qname && s.qtype == h.qtype && s.purpose == h.purpose
  {
    hide PurposeText;
    JoinedKeyInjective(s.server.ip, s.qname, s.qtype.Text(), PurposeText(s.purpose),
                       h.serverIP, h.qname, h.qtype.Text(), PurposeText(h.purpose));
    QTypeTextInjective(s.qtype, h.qtype);
    PurposeTextInjective(s.purpose, h.purpose);
  }

  lemma HopAddress(cfg: Config, st: State, p: nat)
    requires Honest(cfg, st) && p < |st.hops| && st.hops[p].code == LoopCode
    requires forall r :: r in cfg.roots ==> '|' !in r.ip
    ensures '|' !in st.hops[p].serverIP
  {
    var h := st.hops[p];
    assert Backed(cfg, st.log, st.hops, h);
    hide Honest, Learned;
    assert Unanswered(cfg, st.log, st.hops, h);
    var s :| Learned(cfg, st.log, st.hops, s) && cfg.allow(s.ip) && h.serverName == s.name && h.serverIP == s.ip;
    LearnedIsBarFree(cfg, st, s);
  }

  lemma SentAddress(cfg: Config, st: State, j: nat)
    requires Honest(cfg, st) && j < |st.log|
    requires forall r :: r in cfg.roots ==> '|' !in r.ip
    ensures '|' !in st.log[j].server.ip
  {
    assert SentLearned(cfg, st.log, st.hops, j);
    hide Honest, Learned;
    var s := st.log[j];
    LearnedGrows(cfg, st.log[..j], st.hops[..s.hopCount], st.log, st.hops, s.server);
    LearnedIsBarFree(cfg, st, s.server);
  }

  /**
   * A LOOP hop appears only for a question already asked: the same address, name, type and purpose were exchanged
   * earlier in the run, at a time when the hop list was no longer than the LOOP hop's position.
   */
  lemma LoopHopsRepeat(cfg: Config, domain: string, qtype: QType, p: nat)
    requires forall r :: r in cfg.roots ==> '|' !in r.ip
    requires p < |Trace(cfg, domain, qtype).st.hops| && Trace(cfg, domain, qtype).st.hops[p].code == LoopCode
    ensures var st := Trace(cfg, domain, qtype).st;
            exists j :: 0 <= j < |st.log| && st.log[j].hopCount <= p
                        && st.log[j].server.ip == st.hops[p].serverIP && st.log[j].qname == st.hops[p].qname
                        && st.log[j].qtype == st.hops[p].qtype && st.log[j].purpose == st.hops[p].purpose
  {
    var start, st := TopStart(cfg, domain, qtype), Trace(cfg, domain, qtype).st;
    TraceKeeps(cfg, EMPTY_STATE, start, None);
    TraceHonest(cfg, EMPTY_STATE, start, None);
    LoopHopRepeats(cfg, st, p);
  }

  lemma LoopHopRepeats(cfg: Config, st: State, p: nat)
    requires Ledger(cfg, st) && Honest(cfg, st) && p < |st.hops| && st.hops[p].code == LoopCode
    requires forall r :: r in cfg.roots ==> '|' !in r.ip
    ensures exists j :: 0 <= j < |st.log| && st.log[j].hopCount <= p
                        && st.log[j].server.ip == st.hops[p].serverIP && st.log[j].qname == st.hops[p].qname
                        && st.log[j].qtype == st.hops[p].qtype && st.log[j].purpose == st.hops[p].purpose
  {
    hide Honest, SentKey, HopKey, Balanced;
    assert LoopExplained(st.log, st.hops[p], p);
    var s :| s in st.log && SentKey(s) == HopKey(st.hops[p]) && s.hopCount <= p;
    var j :| 0 <= j < |st.log| && st.log[j] == s;
    HopAddress(cfg, st, p);
    SentAddress(cfg, st, j);
    KeyMeansQuestion(s, st.hops[p]);
  }
}
