/** What the hops of a run report is what came over the wire. */
module TraceWire {
  import opened Dns
  import opened TraceLedger
  import opened TraceProvenance
  import opened TraceSpec

  /** The hop reports exchange i of the log, which went over the wire as it should, and says whether it used TCP. */
  ghost predicate FromWire(cfg: Config, log: seq<Sent>, h: Hop, i: nat) {
    && i < |log| && Reports(h, log[i]) && OnWire(cfg, i, log[i])
    && (h.transport == Tcp <==> CutOff(cfg, i, log[i])) && (h.truncated <==> CutOff(cfg, i, log[i]))
  }

  /**
   * Every hop with a response code reports what one query of the run brought: the message over TCP, marked as
   * truncated, if the one over UDP was cut off, and else the one over UDP.
   */
  lemma HopsReportTheWire(cfg: Config, domain: string, qtype: QType, p: nat)
    requires p < |Trace(cfg, domain, qtype).st.hops| && Trace(cfg, domain, qtype).st.hops[p].code.Rcode?
    ensures var st := Trace(cfg, domain, qtype).st;
            exists i: nat :: FromWire(cfg, st.log, st.hops[p], i)
  {
    var st := Trace(cfg, domain, qtype).st;
    NothingInvented(cfg, domain, qtype);
    RunIsBalanced(cfg, domain, qtype);
    hide Trace, CutOff, CutOffs;
    var i: nat :| i < |st.log| && Reports(st.hops[p], st.log[i]);
    assert OnWire(cfg, i, st.log[i]);
    assert FromWire(cfg, st.log, st.hops[p], i);
  }
}
