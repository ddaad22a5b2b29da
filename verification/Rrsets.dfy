/** rrsetsFromSection: grouping a section's records into RRsets. */
module Rrsets {
  import opened Text
  import opened Dns

  datatype Section = AnswerSection | AuthoritySection | AdditionalSection

  datatype RRset = RRset(section: Section, name: string, rtype: RRType, ttl: nat, data: seq<string>)

  type Key = (string, RRType)

  function KeyOf(rr: RR): Key {
    (rr.name, rr.data.Type())
  }

  function Keys(records: seq<RR>): (r: seq<Key>)
    ensures |r| == |records| && forall i :: 0 <= i < |r| ==> r[i] == KeyOf(records[i])
  {
    seq(|records|, i requires 0 <= i < |records| => KeyOf(records[i]))
  }

  /** The texts of the records with the given key, in their original order. */
  function DataFor(records: seq<RR>, key: Key): seq<string> {
    if records == [] then []
    else
      var rest := DataFor(records[..|records| - 1], key);
      var last := records[|records| - 1];
      if KeyOf(last) == key then rest + [last.data.Text()] else rest
  }

  /** The TTL of the first record with the given key. */
  function TtlFor(records: seq<RR>, key: Key): nat {
    if records == [] then 0
    else if KeyOf(records[0]) == key then records[0].ttl
    else TtlFor(records[1..], key)
  }

  function Group(section: Section, records: seq<RR>, key: Key): RRset {
    RRset(section, key.0, key.1, TtlFor(records, key), DataFor(records, key))
  }

  /** The specification: one RRset for every distinct (name, type), in first-seen order. */
  function RrsetsOf(section: Section, records: seq<RR>): (r: seq<RRset>)
    ensures |r| == |FirstSeen(Keys(records))|
  {
    var keys := FirstSeen(Keys(records));
    seq(|keys|, i requires 0 <= i < |keys| => Group(section, records, keys[i]))
  }

  /** The map key of rrsetsFromSection: the name, a bar, the type. */
  function KeyText(key: Key): string {
    key.0 + "|" + key.1.Text()
  }

  lemma BarFreeTail(a: string, b: BarFree, c: string, d: BarFree)
    requires a + "|" + b == c + "|" + d
    ensures a == c && b == d
  {
    var s := a + "|" + b;
    assert s[|a|] == '|' && s[|c|] == '|';
    assert forall i :: |a| < i < |s| ==> s[i] == b[i - |a| - 1];
    assert forall i :: |c| < i < |s| ==> s[i] == d[i - |c| - 1];
    assert |a| == |c|;
    assert a == s[..|a|] == c;
    assert b == s[|a| + 1..] == d;
  }

  /** A name may contain a bar, a type never does: the text determines the key. */
  lemma KeyTextInjective(k: Key, l: Key)
    requires KeyText(k) == KeyText(l)
    ensures k == l
  {
    BarFreeTail(k.0, k.1.Text(), l.0, l.1.Text());
  }

  lemma {:induction false} TtlAppend(records: seq<RR>, rr: RR, key: Key)
    ensures key in Keys(records) ==> TtlFor(records + [rr], key) == TtlFor(records, key)
    ensures key !in Keys(records) && KeyOf(rr) == key ==> TtlFor(records + [rr], key) == rr.ttl
  {
    if records != [] {
      assert (records + [rr])[1..] == records[1..] + [rr];
      TtlAppend(records[1..], rr, key);
      assert Keys(records) == [KeyOf(records[0])] + Keys(records[1..]);
    }
  }

  lemma {:induction false} NoDataForAbsentKey(records: seq<RR>, key: Key)
    requires key !in Keys(records)
    ensures DataFor(records, key) == []
  {
    if records != [] {
      var n := |records| - 1;
      forall i | 0 <= i < n ensures Keys(records[..n])[i] != key {
        assert Keys(records)[i] == Keys(records[..n])[i];
      }
      NoDataForAbsentKey(records[..n], key);
      assert Keys(records)[n] == KeyOf(records[n]);
    }
  }

  lemma GroupAppend(section: Section, records: seq<RR>, rr: RR, key: Key)
    ensures key in Keys(records) ==>
              Group(section, records + [rr], key) ==
              var more := if KeyOf(rr) == key then [rr.data.Text()] else [];
              Group(section, records, key).(data := DataFor(records, key) + more)
    ensures key !in Keys(records) && KeyOf(rr) == key ==>
              Group(section, records + [rr], key) == RRset(section, key.0, key.1, rr.ttl, [rr.data.Text()])
  {
    TtlAppend(records, rr, key);
    assert (records + [rr])[..|records|] == records;
    if key !in Keys(records) {
      NoDataForAbsentKey(records, key);
    }
  }

  function KeyTexts(keys: seq<Key>): (r: seq<string>)
    ensures |r| == |keys| && forall i :: 0 <= i < |r| ==> r[i] == KeyText(keys[i])
  {
    seq(|keys|, i requires 0 <= i < |keys| => KeyText(keys[i]))
  }

  lemma KeyTextIn(keys: seq<Key>, key: Key)
    ensures KeyText(key) in KeyTexts(keys) <==> key in keys
  {
    if key in keys {
      var i :| 0 <= i < |keys| && keys[i] == key;
      assert KeyTexts(keys)[i] == KeyText(key);
    }
    if i :| 0 <= i < |keys| && KeyTexts(keys)[i] == KeyText(key) {
      KeyTextInjective(keys[i], key);
    }
  }

  /** The map of rrsetsFromSection holds the group of every key listed so far. */
  ghost predicate Grouped(section: Section, records: seq<RR>, keys: seq<Key>, grouped: map<string, RRset>) {
    && (forall t :: t in grouped <==> t in KeyTexts(keys))
    && (forall i :: 0 <= i < |keys| ==>
          KeyText(keys[i]) in grouped && grouped[KeyText(keys[i])] == Group(section, records, keys[i]))
  }

  /** A record with a key text not yet in the map opens a group. */
  lemma OpenGroup(section: Section, records: seq<RR>, rr: RR, keys: seq<Key>, grouped: map<string, RRset>)
    requires Grouped(section, records, keys, grouped) && KeyOf(rr) !in keys
    requires forall k :: k in keys <==> k in Keys(records)
    ensures Grouped(section, records + [rr], keys + [KeyOf(rr)],
                    grouped[KeyText(KeyOf(rr)) := RRset(section, rr.name, rr.data.Type(), rr.ttl, [rr.data.Text()])])
  {
    var key := KeyOf(rr);
    assert KeyTexts(keys + [key]) == KeyTexts(keys) + [KeyText(key)];
    forall i | 0 <= i < |keys|
      ensures KeyText(keys[i]) != KeyText(key)
      ensures Group(section, records + [rr], keys[i]) == Group(section, records, keys[i])
    {
      if KeyText(keys[i]) == KeyText(key) { KeyTextInjective(keys[i], key); }
      assert keys[i] in keys;
      GroupAppend(section, records, rr, keys[i]);
    }
    GroupAppend(section, records, rr, key);
  }

  /** A record with a known key text joins the group of its own key and changes no other group. */
  lemma JoinGroup(section: Section, records: seq<RR>, rr: RR, keys: seq<Key>, grouped: map<string, RRset>)
    requires Grouped(section, records, keys, grouped) && KeyOf(rr) in keys
    requires forall k :: k in keys <==> k in Keys(records)
    ensures var text := KeyText(KeyOf(rr));
            text in grouped
            && Grouped(section, records + [rr], keys,
               grouped[text := grouped[text].(data := grouped[text].data + [rr.data.Text()])])
  {
    var key := KeyOf(rr);
    KeyTextIn(keys, key);
    forall i | 0 <= i < |keys|
      ensures KeyText(keys[i]) == KeyText(key) <==> keys[i] == key
      ensures Group(section, records + [rr], keys[i])
              == Group(section, records, keys[i]).(data := DataFor(records, keys[i])
                                                           + (if keys[i] == key then [rr.data.Text()] else []))
    {
      if KeyText(keys[i]) == KeyText(key) { KeyTextInjective(keys[i], key); }
      assert keys[i] in keys;
      GroupAppend(section, records, rr, keys[i]);
    }
  }

  /** The loop variables of rrsetsFromSection: a map keyed by text, and the order in which keys appear. */
  datatype Table = Table(grouped: map<string, RRset>, order: seq<string>)

  function AddRecord(section: Section, rr: RR, table: Table): Table {
    var text := KeyText(KeyOf(rr));
    if text !in table.grouped then
      Table(table.grouped[text := RRset(section, rr.name, rr.data.Type(), rr.ttl, [rr.data.Text()])],
          table.order + [text])
    else
      var rrset := table.grouped[text];
      table.(grouped := table.grouped[text := rrset.(data := rrset.data + [rr.data.Text()])])
  }

  function TableOf(section: Section, records: seq<RR>): Table {
    if records == [] then Table(map[], [])
    else AddRecord(section, records[|records| - 1], TableOf(section, records[..|records| - 1]))
  }

  /** The table after some records: their keys in first-seen order, each with its group. */
  ghost predicate Holds(section: Section, records: seq<RR>, table: Table) {
    && table.order == KeyTexts(FirstSeen(Keys(records)))
    && Grouped(section, records, FirstSeen(Keys(records)), table.grouped)
  }

  lemma HoldsStep(section: Section, records: seq<RR>, rr: RR, table: Table)
    requires Holds(section, records, table)
    ensures Holds(section, records + [rr], AddRecord(section, rr, table))
  {
    hide KeyText, Group, Grouped;
    var keys := FirstSeen(Keys(records));
    assert Keys(records + [rr])[..|records|] == Keys(records);
    forall k ensures k in keys <==> k in Keys(records) { FirstSeenIn(Keys(records), k); }
    KeyTextIn(keys, KeyOf(rr));
    GroupedDomain(section, records, keys, table.grouped, KeyText(KeyOf(rr)));
    if KeyOf(rr) in keys {
      JoinGroup(section, records, rr, keys, table.grouped);
    } else {
      OpenGroup(section, records, rr, keys, table.grouped);
      assert KeyTexts(keys + [KeyOf(rr)]) == KeyTexts(keys) + [KeyText(KeyOf(rr))];
    }
  }

  lemma GroupedDomain(section: Section, records: seq<RR>, keys: seq<Key>, grouped: map<string, RRset>, text: string)
    requires Grouped(section, records, keys, grouped)
    ensures text in grouped <==> text in KeyTexts(keys)
  {}

  lemma {:induction false} TableHoldsGroups(section: Section, records: seq<RR>)
    ensures Holds(section, records, TableOf(section, records))
  {
    hide AddRecord, RrsetsOf, Group;
    if records == [] {
      assert Keys([]) == [];
    } else {
      hide Holds, Keys, FirstSeen;
      var front, rr := records[..|records| - 1], records[|records| - 1];
      TableHoldsGroups(section, front);
      HoldsStep(section, front, rr, TableOf(section, front));
      assert front + [rr] == records;
    }
  }

  /** The second loop of rrsetsFromSection. */
  method ListGroups(table: Table, ghost spec: seq<RRset>) returns (result: seq<RRset>)
    requires |spec| == |table.order|
    requires forall j :: 0 <= j < |spec| ==> table.order[j] in table.grouped && table.grouped[table.order[j]] == spec[j]
    ensures result == spec
  {
    result := [];
    for j := 0 to |table.order|
      invariant result == spec[..j]
    {
      result := result + [table.grouped[table.order[j]]];
    }
  }

  /** rrsetsFromSection: group the records, then list the groups in the order in which their keys appeared. */
  method RrsetsFromSection(section: Section, records: seq<RR>) returns (result: seq<RRset>)
    ensures result == RrsetsOf(section, records)
  {
    var table := Table(map[], []);
    for i := 0 to |records|
      invariant table == TableOf(section, records[..i])
    {
      assert records[..i + 1][..i] == records[..i];
      table := AddRecord(section, records[i], table);
    }
    assert records[..|records|] == records;
    TableHoldsGroups(section, records);
    result := ListGroups(table, RrsetsOf(section, records));
  }

  function TotalData(sets: seq<RRset>): nat {
    if sets == [] then 0 else TotalData(sets[..|sets| - 1]) + |sets[|sets| - 1].data|
  }

  predicate Distinct(keys: seq<Key>) {
    forall i, j :: 0 <= i < j < |keys| ==> keys[i] != keys[j]
  }

  function Groups(section: Section, records: seq<RR>, keys: seq<Key>): (r: seq<RRset>)
    ensures |r| == |keys|
  {
    seq(|keys|, i requires 0 <= i < |keys| => Group(section, records, keys[i]))
  }

  lemma {:induction false} TotalStep(section: Section, records: seq<RR>, keys: seq<Key>)
    requires records != [] && Distinct(keys)
    ensures TotalData(Groups(section, records, keys))
            == TotalData(Groups(section, records[..|records| - 1], keys))
               + (if KeyOf(records[|records| - 1]) in keys then 1 else 0)
  {
    hide TtlFor;
    if keys != [] {
      var n := |keys| - 1;
      var front := records[..|records| - 1];
      TotalStep(section, records, keys[..n]);
      assert Groups(section, records, keys)[..n] == Groups(section, records, keys[..n]);
      assert Groups(section, front, keys)[..n] == Groups(section, front, keys[..n]);
      assert keys == keys[..n] + [keys[n]];
    }
  }

  lemma {:induction false} TotalIsCount(section: Section, records: seq<RR>, keys: seq<Key>)
    requires Distinct(keys)
    requires forall i :: 0 <= i < |records| ==> KeyOf(records[i]) in keys
    ensures TotalData(Groups(section, records, keys)) == |records|
  {
    if records == [] {
      NothingIsEmpty(section, keys);
    } else {
      TotalIsCount(section, records[..|records| - 1], keys);
      TotalStep(section, records, keys);
    }
  }

  lemma {:induction false} NothingIsEmpty(section: Section, keys: seq<Key>)
    ensures TotalData(Groups(section, [], keys)) == 0
  {
    if keys != [] {
      assert Groups(section, [], keys)[..|keys| - 1] == Groups(section, [], keys[..|keys| - 1]);
      NothingIsEmpty(section, keys[..|keys| - 1]);
    }
  }

  function SetKey(s: RRset): Key { (s.name, s.rtype) }

  /** The sets' keys are the distinct keys of the records, in first-seen order. */
  lemma SetKeys(section: Section, records: seq<RR>)
    ensures var sets := RrsetsOf(section, records);
            && (forall i, j :: 0 <= i < j < |sets| ==> SetKey(sets[i]) != SetKey(sets[j]))
            && (forall i, j :: 0 <= i < j < |sets| ==> SeenBefore(Keys(records), SetKey(sets[i]), SetKey(sets[j])))
            && (forall i :: 0 <= i < |sets| ==> SetKey(sets[i]) == FirstSeen(Keys(records))[i])
  {
    hide SeenBefore;
    var sets := RrsetsOf(section, records);
    FirstSeenDistinct(Keys(records));
    forall i: nat, j: nat | i < j < |sets| ensures SeenBefore(Keys(records), SetKey(sets[i]), SetKey(sets[j])) {
      FirstSeenOrder(Keys(records), i, j);
    }
  }

  /** The set takes its name, type, TTL and first text from record r, the first one of that name and type. */
  predicate StartsAt(s: RRset, section: Section, records: seq<RR>, r: nat)
    requires r < |records|
  {
    && s.section == section && s.name == records[r].name && s.rtype == records[r].data.Type()
    && s.ttl == records[r].ttl && s.data != [] && s.data[0] == records[r].data.Text()
    && forall q :: 0 <= q < r ==> !(records[q].name == s.name && records[q].data.Type() == s.rtype)
  }

  lemma {:induction false} FirstRecord(records: seq<RR>, key: Key) returns (r: nat)
    requires key in Keys(records)
    ensures r < |records| && KeyOf(records[r]) == key && key !in Keys(records[..r])
    ensures TtlFor(records, key) == records[r].ttl
    ensures DataFor(records, key) != [] && DataFor(records, key)[0] == records[r].data.Text()
  {
    var n := |records| - 1;
    var front, rr := records[..n], records[n];
    assert front + [rr] == records;
    TtlAppend(front, rr, key);
    assert Keys(records)[..n] == Keys(front) && Keys(records)[n] == KeyOf(rr);
    if key in Keys(front) {
      r := FirstRecord(front, key);
      assert records[..r] == front[..r];
    } else {
      r := n;
      NoDataForAbsentKey(front, key);
    }
  }

  ghost predicate Starts(s: RRset, section: Section, records: seq<RR>) {
    exists r: nat :: r < |records| && StartsAt(s, section, records, r)
  }

  lemma SetStarts(section: Section, records: seq<RR>, i: nat)
    requires i < |RrsetsOf(section, records)|
    ensures Starts(RrsetsOf(section, records)[i], section, records)
  {
    var key := FirstSeen(Keys(records))[i];
    FirstSeenIn(Keys(records), key);
    var r := FirstRecord(records, key);
    forall q | 0 <= q < r ensures KeyOf(records[q]) != key {
      assert Keys(records[..r])[q] == KeyOf(records[q]);
    }
    assert StartsAt(RrsetsOf(section, records)[i], section, records, r);
  }

  /**
   * RRset grouping is a stable partition: no two sets share a name and type, the sets come in the order in which their
   * keys are first seen, every record's text is in the set of its own name and type, each set holds exactly the texts
   * of its records in order, with the TTL of the first, and no text is lost or doubled.
   */
  lemma StablePartition(section: Section, records: seq<RR>)
    ensures var sets := RrsetsOf(section, records);
            && (forall i, j :: 0 <= i < j < |sets| ==>
                  SetKey(sets[i]) != SetKey(sets[j]) && SeenBefore(Keys(records), SetKey(sets[i]), SetKey(sets[j])))
            && (forall i :: 0 <= i < |sets| ==> sets[i].data == DataFor(records, SetKey(sets[i])))
            && (forall i :: 0 <= i < |sets| ==> Starts(sets[i], section, records))
            && (forall rr :: rr in records ==> exists i :: 0 <= i < |sets| && SetKey(sets[i]) == KeyOf(rr))
            && TotalData(sets) == |records|
  {
    var keys, sets := FirstSeen(Keys(records)), RrsetsOf(section, records);
    SetKeys(section, records);
    FirstSeenDistinct(Keys(records));
    hide SeenBefore, FirstSeen, DataFor, TtlFor, Starts;
    forall i | 0 <= i < |sets| ensures Starts(sets[i], section, records) {
      SetStarts(section, records, i);
    }
    forall rr | rr in records ensures exists i :: 0 <= i < |sets| && SetKey(sets[i]) == KeyOf(rr) {
      RecordHasKey(records, rr);
      var i :| 0 <= i < |keys| && keys[i] == KeyOf(rr);
      assert SetKey(sets[i]) == KeyOf(rr);
    }
    forall i | 0 <= i < |records| ensures KeyOf(records[i]) in keys { RecordHasKey(records, records[i]); }
    assert sets == Groups(section, records, keys);
    TotalIsCount(section, records, keys);
  }

  lemma RecordHasKey(records: seq<RR>, rr: RR)
    requires rr in records
    ensures KeyOf(rr) in FirstSeen(Keys(records))
  {
    var i :| 0 <= i < |records| && records[i] == rr;
    assert Keys(records)[i] == KeyOf(rr);
    FirstSeenIn(Keys(records), KeyOf(rr));
  }

  /** A set holds a text exactly if a record of its name and type has it. */
  lemma {:induction false} DataForMeaning(records: seq<RR>, key: Key, text: string)
    ensures text in DataFor(records, key)
            <==> exists rr :: rr in records && KeyOf(rr) == key && rr.data.Text() == text
  {
    if records != [] {
      var n := |records| - 1;
      DataForMeaning(records[..n], key, text);
      assert forall rr :: rr in records <==> rr in records[..n] || rr == records[n];
    }
  }

  /** Data of an address-typed set is address text: what a support lookup reads never contains a bar. */
  lemma AddressDataIsBarFree(records: seq<RR>, key: Key, ip: string)
    requires key.1 == A || key.1 == AAAA
    requires ip in DataFor(records, key)
    ensures '|' !in ip
    ensures exists rr :: rr in records && rr.name == key.0
                         && rr.data == if key.1 == A then AData(ip) else AAAAData(ip)
  {
    DataForMeaning(records, key, ip);
  }

  /** The nameservers of a section are exactly the texts of its NS sets. */
  lemma NsSetsMeaning(section: Section, records: seq<RR>, name: string)
    ensures name in NsTargets(records) <==>
            exists i :: 0 <= i < |RrsetsOf(section, records)| && RrsetsOf(section, records)[i].rtype == NS
                        && name in RrsetsOf(section, records)[i].data
  {
    NsTargetsMeaning(records, name);
    hide NsTargets;
    var sets := RrsetsOf(section, records);
    if rr :| rr in records && rr.data == NSData(name) {
      var i := RecordIsGrouped(section, records, rr);
      assert sets[i].rtype == NS && name in sets[i].data;
    }
    if i :| 0 <= i < |sets| && sets[i].rtype == NS && name in sets[i].data {
      DataForMeaning(records, SetKey(sets[i]), name);
    }
  }

  lemma {:induction false} DataHasText(records: seq<RR>, rr: RR)
    requires rr in records
    ensures rr.data.Text() in DataFor(records, KeyOf(rr))
  {
    var n := |records| - 1;
    if records[n] != rr {
      assert rr in records[..n];
      DataHasText(records[..n], rr);
    }
  }

  /** Every record is found in the set of its own name and type. */
  lemma RecordIsGrouped(section: Section, records: seq<RR>, rr: RR) returns (i: nat)
    requires rr in records
    ensures i < |RrsetsOf(section, records)|
    ensures var rrset := RrsetsOf(section, records)[i];
            rrset.name == rr.name && rrset.rtype == rr.data.Type() && rr.data.Text() in rrset.data
  {
    RecordHasKey(records, rr);
    DataHasText(records, rr);
    var keys := FirstSeen(Keys(records));
    i :| 0 <= i < |keys| && keys[i] == KeyOf(rr);
  }

  /** A CNAME set of the name, whatever its case. */
  predicate IsAliasSet(s: RRset, qname: string) {
    s.rtype == CNAME && EqualFold(s.name, qname)
  }

  /** The first text of the first CNAME set of the name, or the empty string. */
  function FirstAlias(sets: seq<RRset>, qname: string): string {
    if sets == [] then ""
    else if IsAliasSet(sets[0], qname) && sets[0].data != [] then sets[0].data[0]
    else FirstAlias(sets[1..], qname)
  }

  lemma {:induction false} FirstAliasAt(sets: seq<RRset>, qname: string, i: nat)
    requires i < |sets| && IsAliasSet(sets[i], qname) && sets[i].data != []
    requires forall j :: 0 <= j < i ==> !IsAliasSet(sets[j], qname)
    ensures FirstAlias(sets, qname) == sets[i].data[0]
  {
    hide IsAliasSet;
    if i > 0 {
      FirstAliasAt(sets[1..], qname, i - 1);
    }
  }

  lemma {:induction false} NoAlias(sets: seq<RRset>, qname: string)
    requires forall j :: 0 <= j < |sets| ==> !IsAliasSet(sets[j], qname)
    ensures FirstAlias(sets, qname) == ""
  {
    hide IsAliasSet;
    if sets != [] {
      NoAlias(sets[1..], qname);
    }
  }

  lemma {:induction false} FirstAliasSet(sets: seq<RRset>, qname: string, k: nat) returns (i: nat)
    requires k < |sets| && IsAliasSet(sets[k], qname)
    ensures i <= k && IsAliasSet(sets[i], qname) && forall j :: 0 <= j < i ==> !IsAliasSet(sets[j], qname)
  {
    if j :| 0 <= j < k && IsAliasSet(sets[j], qname) {
      i := FirstAliasSet(sets, qname, j);
    } else {
      i := k;
    }
  }

  /** The alias of a name can be read off the sets: its first CNAME set starts with its first CNAME record. */
  lemma FirstAliasIsCNAME(section: Section, records: seq<RR>, qname: string)
    ensures FirstAlias(RrsetsOf(section, records), qname) == FirstCNAME(records, qname)
  {
    hide EqualFold, FirstCNAME, FirstAlias, RrsetsOf, Starts, SeenBefore;
    var sets := RrsetsOf(section, records);
    FirstCNAMEMeaning(records, qname);
    if k: nat :| k < |records| && IsAlias(records, qname, k) {
      var s := RecordIsGrouped(section, records, records[k]);
      var i := FirstAliasSet(sets, qname, s);
      SetStarts(section, records, i);
      var r := StartOf(sets[i], section, records);
      FirstAliasAt(sets, qname, i);
      forall q: nat | q < |records| && IsAlias(records, qname, q) ensures r <= q {
        AliasStarts(section, records, qname, i, r, q);
      }
      assert IsAlias(records, qname, r);
    } else {
      forall j | 0 <= j < |sets| ensures !IsAliasSet(sets[j], qname) {
        SetStarts(section, records, j);
        var r := StartOf(sets[j], section, records);
        assert !IsAlias(records, qname, r);
      }
      NoAlias(sets, qname);
    }
  }

  lemma StartOf(s: RRset, section: Section, records: seq<RR>) returns (r: nat)
    requires Starts(s, section, records)
    ensures r < |records| && StartsAt(s, section, records, r)
  {
    r :| r < |records| && StartsAt(s, section, records, r);
  }

  lemma InPrefix<T>(s: seq<T>, a: nat)
    requires a < |s|
    ensures forall q :: 0 <= q <= a ==> s[q] in s[..a + 1]
  {
    forall q | 0 <= q <= a ensures s[q] in s[..a + 1] {
      assert s[..a + 1][q] == s[q];
    }
  }

  /** No CNAME record of the name comes before the start of the first CNAME set. */
  lemma AliasStarts(section: Section, records: seq<RR>, qname: string, i: nat, r: nat, q: nat)
    requires i < |RrsetsOf(section, records)| && r < |records| && q < |records| && IsAlias(records, qname, q)
    requires StartsAt(RrsetsOf(section, records)[i], section, records, r)
    requires forall j :: 0 <= j < i ==> !IsAliasSet(RrsetsOf(section, records)[j], qname)
    ensures r <= q
  {
    var keys, sets := Keys(records), RrsetsOf(section, records);
    SetKeys(section, records);
    var j := RecordIsGrouped(section, records, records[q]);
    hide EqualFold, RrsetsOf;
    assert IsAliasSet(sets[j], qname);
    if i < j {
      assert SeenBefore(keys, SetKey(sets[i]), SetKey(sets[j]));
      var a: nat :| a < |keys| && keys[a] == SetKey(sets[i]) && SetKey(sets[j]) !in keys[..a + 1];
      InPrefix(keys, a);
    }
  }
}
