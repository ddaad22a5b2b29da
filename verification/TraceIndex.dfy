/** The index law: what Index and ParentIndex say about positions in the hop list of a run. */
module TraceIndex {
  import opened Text
  import opened Dns
  import opened Rrsets
  import opened TraceSpec
  import opened TraceFrames

  /** The hop at p: its Index is at most its position, and its parent is the given one or lies in between. */
  ghost predicate Placed(hops: seq<Hop>, lo: nat, p: nat, parent: Option<nat>)
    requires p < |hops|
  {
    && lo <= hops[p].index <= p
    && (hops[p].parent == parent || (hops[p].parent.Some? && lo <= hops[p].parent.value <= hops[p].index))
  }

  /** The hops between a hop's Index and its position are hops of support lookups below it, and of nothing else. */
  ghost predicate GapIsSupport(hops: seq<Hop>, p: nat)
    requires p < |hops|
  {
    forall r :: hops[p].index <= r < p ==>
                  hops[r].parent.Some? && hops[p].index <= hops[r].parent.value <= hops[r].index
  }

  ghost predicate Lawful(hops: seq<Hop>, lo: nat, hi: nat, parent: Option<nat>)
    requires hi <= |hops|
  {
    forall p :: lo <= p < hi ==> Placed(hops, lo, p, parent) && GapIsSupport(hops, p)
  }

  lemma {:induction false} PathLaw(cfg: Config, hops: seq<Hop>, lo: nat, hi: nat, start: Cursor, parent: Option<nat>)
    requires Path(cfg, hops, lo, hi, start, parent)
    ensures Lawful(hops, lo, hi, parent)
    decreases 2 * (hi - lo), 0
  {
    hide Asks, Linked, Supported;
    if lo < hi {
      var h := hops[hi - 1];
      SupportedLaw(cfg, hops, h, hi - 1);
      PathLaw(cfg, hops, lo, h.index, start, parent);
      assert GapIsSupport(hops, hi - 1) by {
        forall r | h.index <= r < hi - 1
          ensures hops[r].parent.Some? && h.index <= hops[r].parent.value <= hops[r].index
        {
          assert Placed(hops, h.index, r, Some(h.index));
        }
      }
      forall p | lo <= p < hi ensures Placed(hops, lo, p, parent) && GapIsSupport(hops, p) {
        if h.index <= p < hi - 1 {
          assert Placed(hops, h.index, p, Some(h.index));
        }
      }
    }
  }

  /** The hops are placed below the parent index, or below one of themselves. */
  ghost predicate AllSupport(hops: seq<Hop>, lo: nat, hi: nat, parentIndex: nat)
    requires hi <= |hops|
  {
    forall p :: lo <= p < hi ==>
      && GapIsSupport(hops, p) && lo <= hops[p].index <= p
      && hops[p].parent.Some? && (hops[p].parent.value == parentIndex || lo <= hops[p].parent.value <= hops[p].index)
  }

  lemma {:induction false} SupportedLaw(cfg: Config, hops: seq<Hop>, h: Hop, hi: nat)
    requires h.index <= hi <= |hops| && Supported(cfg, hops, h, hi)
    ensures AllSupport(hops, h.index, hi, h.index)
    decreases 2 * (hi - h.index) + 1, 0
  {
    hide RefersOn, NameRuns, NoUsableGlue, GlueTargets;
    if h.index < hi {
      var m :| RefersOn(h, m) && Referring(cfg, hops, h, m, hi);
      RunsLaw(cfg, hops, h.index, hi, h.index, NsTargets(m.authority), ReferralZone(m.authority), h.targets);
    }
  }

  lemma {:induction false} RunsLaw(cfg: Config, hops: seq<Hop>, lo: nat, hi: nat, parentIndex: nat, names: seq<string>,
                                   zone: string, targets: seq<NextTarget>)
    requires NameRuns(cfg, hops, lo, hi, parentIndex, names, zone, targets) && parentIndex <= lo
    ensures hi <= |hops| && AllSupport(hops, lo, hi, parentIndex)
    decreases 2 * (hi - lo), 2 * |names| + 1
  {
    hide NameRun, AllowedTargets;
    if names != [] {
      var mid: nat, end: nat, ips, rest :|
        && FirstRun(cfg, hops, lo, mid, end, hi, parentIndex, names, zone, ips, rest)
        && targets == AllowedTargets(cfg, names[0], zone, ips) + rest;
      RunLaw(cfg, hops, lo, mid, end, parentIndex, names[0], ips);
      RunsLaw(cfg, hops, end, hi, parentIndex, names[1..], zone, rest);
      AllSupportJoins(hops, lo, end, hi, parentIndex);
    }
  }

  lemma {:induction false} RunLaw(cfg: Config, hops: seq<Hop>, lo: nat, mid: nat, hi: nat, parentIndex: nat,
                                  name: string, ips: seq<string>)
    requires lo <= mid <= hi <= |hops| && NameRun(cfg, hops, lo, mid, hi, parentIndex, name, ips) && parentIndex <= lo
    ensures AllSupport(hops, lo, hi, parentIndex)
    decreases 2 * (hi - lo), 1
  {
    hide Path, SupportStart, Found, Lawful;
    PathLaw(cfg, hops, lo, mid, SupportStart(cfg, name, A), Some(parentIndex));
    LawfulIsSupport(hops, lo, mid, parentIndex);
    if mid < hi {
      PathLaw(cfg, hops, mid, hi, SupportStart(cfg, name, AAAA), Some(parentIndex));
      LawfulIsSupport(hops, mid, hi, parentIndex);
      AllSupportJoins(hops, lo, mid, hi, parentIndex);
    }
  }

  lemma LawfulIsSupport(hops: seq<Hop>, lo: nat, hi: nat, parentIndex: nat)
    requires hi <= |hops| && Lawful(hops, lo, hi, Some(parentIndex))
    ensures AllSupport(hops, lo, hi, parentIndex)
  {
    hide GapIsSupport;
    forall p | lo <= p < hi
      ensures GapIsSupport(hops, p) && lo <= hops[p].index <= p && hops[p].parent.Some?
      ensures hops[p].parent.value == parentIndex || lo <= hops[p].parent.value <= hops[p].index
    {
      assert Placed(hops, lo, p, Some(parentIndex));
    }
  }

  lemma AllSupportJoins(hops: seq<Hop>, lo: nat, mid: nat, hi: nat, parentIndex: nat)
    requires lo <= mid <= hi <= |hops|
    requires AllSupport(hops, lo, mid, parentIndex) && AllSupport(hops, mid, hi, parentIndex)
    ensures AllSupport(hops, lo, hi, parentIndex)
  {
    hide GapIsSupport;
  }

  /**
   * The index law of a run with an allowed root. Index is at most the position, and the gap consists exactly of hops
   * of the hop's own support lookups; a support hop's ParentIndex is at most its Index; and a hop has the position as
   * its Index throughout when no support lookup appended a hop.
   */
  lemma IndexLaw(cfg: Config, domain: string, qtype: QType)
    requires HasAllowed(cfg, cfg.roots)
    ensures var hops := Trace(cfg, domain, qtype).st.hops;
            && (forall p :: 0 <= p < |hops| ==> hops[p].index <= p && GapIsSupport(hops, p))
            && (forall p :: 0 <= p < |hops| && hops[p].parent.Some? ==> hops[p].parent.value <= hops[p].index)
            && ((forall p :: 0 <= p < |hops| ==> hops[p].parent.None?) ==>
                  forall p :: 0 <= p < |hops| ==> hops[p].index == p)
  {
    var hops := Trace(cfg, domain, qtype).st.hops;
    TraceIsAPath(cfg, domain, qtype);
    PathLaw(cfg, hops, 0, |hops|, TopStart(cfg, domain, qtype), None);
    forall p | 0 <= p < |hops| ensures hops[p].index <= p && GapIsSupport(hops, p) {
      assert Placed(hops, 0, p, None);
    }
    forall p | 0 <= p < |hops| && hops[p].parent.Some? ensures hops[p].parent.value <= hops[p].index {
      assert Placed(hops, 0, p, None);
    }
    forall p | 0 <= p < |hops| && hops[p].index < p ensures exists r :: 0 <= r < |hops| && hops[r].parent.Some? {
      assert GapIsSupport(hops, p);
      assert hops[hops[p].index].parent.Some?;
    }
  }

  /** The first hop that support lookups append carries their common start as Index and as ParentIndex. */
  lemma {:induction false} FirstOfPath(cfg: Config, hops: seq<Hop>, lo: nat, hi: nat, start: Cursor,
                                       parent: Option<nat>)
    requires Path(cfg, hops, lo, hi, start, parent) && lo < hi
    ensures hops[lo].index == lo && (hops[lo].parent == parent || hops[lo].parent == Some(lo))
    decreases 2 * (hi - lo), 0
  {
    hide Asks, Linked, Supported;
    var h := hops[hi - 1];
    if lo < h.index {
      FirstOfPath(cfg, hops, lo, h.index, start, parent);
    } else if lo < hi - 1 {
      FirstOfSupported(cfg, hops, h, hi - 1);
    }
  }

  lemma {:induction false} FirstOfSupported(cfg: Config, hops: seq<Hop>, h: Hop, hi: nat)
    requires h.index < hi <= |hops| && Supported(cfg, hops, h, hi)
    ensures hops[h.index].index == h.index && hops[h.index].parent == Some(h.index)
    decreases 2 * (hi - h.index) + 1, 0
  {
    hide RefersOn, NameRuns, NoUsableGlue, GlueTargets;
    var m :| RefersOn(h, m) && Referring(cfg, hops, h, m, hi);
    FirstOfRuns(cfg, hops, h.index, hi, h.index, NsTargets(m.authority), ReferralZone(m.authority), h.targets);
  }

  lemma {:induction false} FirstOfRuns(
    cfg: Config, hops: seq<Hop>, lo: nat, hi: nat, parentIndex: nat, names: seq<string>, zone: string,
    targets: seq<NextTarget>)
    requires NameRuns(cfg, hops, lo, hi, parentIndex, names, zone, targets) && lo < hi
    ensures hops[lo].index == lo && (hops[lo].parent == Some(parentIndex) || hops[lo].parent == Some(lo))
    decreases 2 * (hi - lo), 2 * |names| + 1
  {
    hide Path, SupportStart, Found, AllowedTargets, NameRun;
    var mid: nat, end: nat, ips, rest :|
      && FirstRun(cfg, hops, lo, mid, end, hi, parentIndex, names, zone, ips, rest)
      && targets == AllowedTargets(cfg, names[0], zone, ips) + rest;
    RunPaths(cfg, hops, lo, mid, end, parentIndex, names[0], ips);
    if lo < mid {
      FirstOfPath(cfg, hops, lo, mid, SupportStart(cfg, names[0], A), Some(parentIndex));
    } else if lo < end {
      FirstOfPath(cfg, hops, lo, end, SupportStart(cfg, names[0], AAAA), Some(parentIndex));
    } else {
      FirstOfRuns(cfg, hops, lo, hi, parentIndex, names[1..], zone, rest);
    }
  }

  /**
   * If a lookup has a hop of another parent, then one of its own hops shares its Index with a hop that is its own
   * parent.
   */
  lemma {:induction false} CollisionInPath(cfg: Config, hops: seq<Hop>, lo: nat, hi: nat, start: Cursor,
                                           parent: Option<nat>, p: nat)
    returns (own: nat)
    requires Path(cfg, hops, lo, hi, start, parent) && lo <= p < hi && hops[p].parent != parent
    ensures lo <= own < hi && hops[own].parent == parent && lo <= hops[own].index < own
    ensures hops[hops[own].index].index == hops[own].index && hops[hops[own].index].parent == Some(hops[own].index)
    decreases hi - lo
  {
    hide Asks, Linked, Supported;
    var h := hops[hi - 1];
    if p < h.index {
      own := CollisionInPath(cfg, hops, lo, h.index, start, parent, p);
    } else {
      FirstOfSupported(cfg, hops, h, hi - 1);
      own := hi - 1;
    }
  }

  /**
   * Indexes are not unique once a support lookup has appended a hop: some top-level hop shares its Index with such a
   * hop.
   */
  lemma SupportHopsCollide(cfg: Config, domain: string, qtype: QType, p: nat) returns (own: nat)
    requires HasAllowed(cfg, cfg.roots)
    requires p < |Trace(cfg, domain, qtype).st.hops| && Trace(cfg, domain, qtype).st.hops[p].parent.Some?
    ensures var hops := Trace(cfg, domain, qtype).st.hops;
            && own < |hops| && hops[own].parent.None? && hops[own].index < own
            && hops[hops[own].index].index == hops[own].index
            && hops[hops[own].index].parent == Some(hops[own].index)
  {
    TraceIsAPath(cfg, domain, qtype);
    var hops := Trace(cfg, domain, qtype).st.hops;
    hide Trace;
    own := CollisionInPath(cfg, hops, 0, |hops|, TopStart(cfg, domain, qtype), None, p);
  }

  // ---- What a referral leads to ----

  /** At every level of nesting, each hop stands behind its own support lookups. */
  lemma {:induction false} SupportedInPath(cfg: Config, hops: seq<Hop>, lo: nat, hi: nat, start: Cursor,
                                           parent: Option<nat>, p: nat)
    requires Path(cfg, hops, lo, hi, start, parent) && lo <= p < hi
    ensures hops[p].index <= p && Supported(cfg, hops, hops[p], p)
    decreases 2 * (hi - lo), 0
  {
    hide Asks, Linked, RefersOn, NameRuns, NoUsableGlue, GlueTargets;
    var h := hops[hi - 1];
    if p < h.index {
      SupportedInPath(cfg, hops, lo, h.index, start, parent, p);
    } else if p < hi - 1 {
      var m :| RefersOn(h, m) && Referring(cfg, hops, h, m, hi - 1);
      SupportedInRuns(cfg, hops, h.index, hi - 1, h.index, NsTargets(m.authority), ReferralZone(m.authority), h.targets,
                      p);
    }
  }

  lemma {:induction false} SupportedInRuns(
    cfg: Config, hops: seq<Hop>, lo: nat, hi: nat, parentIndex: nat, names: seq<string>, zone: string,
    targets: seq<NextTarget>, p: nat)
    requires NameRuns(cfg, hops, lo, hi, parentIndex, names, zone, targets) && lo <= p < hi
    ensures hops[p].index <= p && Supported(cfg, hops, hops[p], p)
    decreases 2 * (hi - lo), 2 * |names| + 1
  {
    hide Path, SupportStart, Found, AllowedTargets, NameRun;
    var mid: nat, end: nat, ips, rest :|
      && FirstRun(cfg, hops, lo, mid, end, hi, parentIndex, names, zone, ips, rest)
      && targets == AllowedTargets(cfg, names[0], zone, ips) + rest;
    RunPaths(cfg, hops, lo, mid, end, parentIndex, names[0], ips);
    hide Supported;
    if p < mid {
      SupportedInPath(cfg, hops, lo, mid, SupportStart(cfg, names[0], A), Some(parentIndex), p);
    } else if p < end {
      SupportedInPath(cfg, hops, mid, end, SupportStart(cfg, names[0], AAAA), Some(parentIndex), p);
    } else {
      SupportedInRuns(cfg, hops, end, hi, parentIndex, names[1..], zone, rest, p);
    }
  }

  /**
   * The next targets of a referral are complete, anywhere in a run. A hop that reports a NOERROR response which neither
   * answers nor ends its question lists all the glue that the policy allows, name by name. If there is none, it lists
   * the allowed addresses that the support lookups before it found, name by name: all A data of the hops that answer,
   * each address once, or all AAAA data if there is no A data. It is a referral if it lists any, and else unusable.
   */
  lemma ReferralIsComplete(cfg: Config, domain: string, qtype: QType, p: nat) returns (m: Message)
    requires HasAllowed(cfg, cfg.roots)
    requires var hops := Trace(cfg, domain, qtype).st.hops;
             p < |hops| && hops[p].code == Rcode(NOERROR) && hops[p].kind in {Referral, Error}
    ensures var hops := Trace(cfg, domain, qtype).st.hops;
            && hops[p].index <= p && RefersOn(hops[p], m) && Referring(cfg, hops, hops[p], m, p)
            && forall name :: name in NsTargets(m.authority) <==> NamesServer(hops[p], name)
  {
    TraceIsAPath(cfg, domain, qtype);
    var hops := Trace(cfg, domain, qtype).st.hops;
    hide Trace, Path, Referring, RefersOn;
    SupportedInPath(cfg, hops, 0, |hops|, TopStart(cfg, domain, qtype), None, p);
    m :| RefersOn(hops[p], m) && Referring(cfg, hops, hops[p], m, p);
    forall name ensures name in NsTargets(m.authority) <==> NamesServer(hops[p], name) {
      HopNamesServer(hops[p], m, name);
    }
  }

  /** The hop shows the name as a nameserver in its authority section. */
  predicate NamesServer(h: Hop, name: string) {
    exists i :: 0 <= i < |h.authority| && h.authority[i].rtype == NS && name in h.authority[i].data
  }

  lemma HopNamesServer(h: Hop, m: Message, name: string)
    requires RefersOn(h, m)
    ensures name in NsTargets(m.authority) <==> NamesServer(h, name)
  {
    hide IsTerminal, NsTargets;
    NsSetsMeaning(AuthoritySection, m.authority, name);
  }

  /** The kind of every hop of a run is what its own response code and sets say. */
  lemma KindsFit(cfg: Config, domain: string, qtype: QType, p: nat)
    requires HasAllowed(cfg, cfg.roots) && p < |Trace(cfg, domain, qtype).st.hops|
    ensures KindFits(Trace(cfg, domain, qtype).st.hops[p])
  {
    TraceIsAPath(cfg, domain, qtype);
    var hops := Trace(cfg, domain, qtype).st.hops;
    hide Trace, Path, KindFits, Referring, RefersOn;
    SupportedInPath(cfg, hops, 0, |hops|, TopStart(cfg, domain, qtype), None, p);
  }

  /**
   * Support lookups are made only when they are needed: a hop anywhere in a run has some only if it reports a NOERROR
   * response that does not answer, names nameservers, and has no glue for them that the policy allows.
   */
  lemma SupportMeansNoGlue(cfg: Config, domain: string, qtype: QType, p: nat) returns (m: Message)
    requires HasAllowed(cfg, cfg.roots)
    requires p < |Trace(cfg, domain, qtype).st.hops| && Trace(cfg, domain, qtype).st.hops[p].index < p
    ensures Glueless(cfg, Trace(cfg, domain, qtype).st.hops[p], m) && m.rcode == NOERROR
  {
    TraceIsAPath(cfg, domain, qtype);
    var hops := Trace(cfg, domain, qtype).st.hops;
    hide Trace, Path, NameRuns, NoUsableGlue, GlueTargets;
    SupportedInPath(cfg, hops, 0, |hops|, TopStart(cfg, domain, qtype), None, p);
    m :| RefersOn(hops[p], m) && Referring(cfg, hops, hops[p], m, p);
  }

  /** What a scan gathers: the data of that type in the answers of the parent's support lookups for the name. */
  lemma {:induction false} GatheredMeaning(hops: seq<Hop>, parentIndex: nat, name: string, qtype: QType, ip: string)
    ensures ip in Gathered(hops, parentIndex, name, qtype) <==>
            exists h, s :: h in hops && AnswersFor(h, parentIndex, name) && IsDataOf(ip, s, h, qtype)
  {
    hide DataIn;
    if hops != [] {
      var h, rest := hops[0], hops[1..];
      GatheredMeaning(rest, parentIndex, name, qtype, ip);
      DataInMeaning(h.answer, qtype, ip);
      if ip in DataIn(h.answer, qtype) {
        var s :| s in h.answer && s.rtype == qtype && ip in s.data;
        assert IsDataOf(ip, s, h, qtype);
      }
      hide IsDataOf;
    }
  }

  predicate IsDataOf(ip: string, s: RRset, h: Hop, qtype: QType) {
    s in h.answer && s.rtype == qtype && ip in s.data
  }

  lemma {:induction false} DataInMeaning(sets: seq<RRset>, qtype: QType, text: string)
    ensures text in DataIn(sets, qtype) <==> exists s :: s in sets && s.rtype == qtype && text in s.data
  {
    if sets != [] {
      DataInMeaning(sets[1..], qtype, text);
      assert forall s :: s in sets <==> s == sets[0] || s in sets[1..];
    }
  }

  /** The targets for some addresses are those that the policy allows. */
  lemma {:induction false} AllowedTargetsMeaning(cfg: Config, name: string, zone: string, ips: seq<string>,
                                                 t: NextTarget)
    ensures t in AllowedTargets(cfg, name, zone, ips)
            <==> t == NextTarget(name, t.ip, zone, Support) && t.ip in ips && cfg.allow(t.ip)
  {
    if ips != [] {
      AllowedTargetsMeaning(cfg, name, zone, ips[1..], t);
    }
  }
}
