/** The Forwarded and X-Forwarded-For headers: from field lines to the list of hops (clientid.go). */
module Forwarded {
  import opened Text
  import opened HeaderText
  import opened QuotedText
  import opened Addresses

  type ParsedAddr = a: Addr | a.Valid() && !a.Invalid? witness V4(0)

  /** netip.ParseAddr and net.SplitHostPort (its host part): library code, about which nothing is assumed. */
  datatype Lib = Lib(parseAddr: string -> Option<ParsedAddr>, splitHostPort: string -> Option<string>)

  /** parseCanonicalAddr */
  function ParseCanonicalAddr(lib: Lib, text: string): (r: Option<ParsedAddr>)
    ensures r.Some? ==> !r.value.Is4In6()
  {
    match lib.parseAddr(text)
    case None => None
    case Some(a) => Some(a.Unmap())
  }

  /** parseIPHop */
  function ParseIPHop(lib: Lib, text: string): (r: Option<ParsedAddr>)
    ensures r.Some? ==> !r.value.Is4In6()
  {
    var value := Trim(text);
    if value == "" || '"' in value || EqualFold(value, "unknown") || value[0] == '_' then None
    else if value[0] == '[' then
      var end := IndexOf(value, ']');
      if end == |value| then None
      else
        var host, rest := value[1..end], value[end + 1..];
        if rest != "" && rest[0] != ':' then None else ParseCanonicalAddr(lib, host)
    else
      match lib.splitHostPort(value)
      case Some(host) => ParseCanonicalAddr(lib, host)
      case None => ParseCanonicalAddr(lib, value)
  }

  /** The host that a trimmed hop text writes: in brackets, before a port, or the text itself. */
  ghost predicate WritesHost(lib: Lib, value: string, host: string) {
    if value != "" && value[0] == '[' then
      exists rest: string :: value == "[" + host + "]" + rest && ']' !in host && (rest == "" || rest[0] == ':')
    else if lib.splitHostPort(value).Some? then lib.splitHostPort(value) == Some(host)
    else host == value
  }

  /** A hop text is read exactly when it is no obfuscated, unknown or quoted name and writes the host of an address. */
  lemma IPHopExactlyWhen(lib: Lib, text: string, a: ParsedAddr)
    ensures var value := Trim(text);
            ParseIPHop(lib, text) == Some(a)
            <==> && value != "" && '"' !in value && value[0] != '_' && !EqualFold(value, "unknown")
                 && exists host, b :: WritesHost(lib, value, host) && lib.parseAddr(host) == Some(b) && b.Unmap() == a
  {
    var value := Trim(text);
    hide Trim, EqualFold;
    assert forall host ::
        ParseCanonicalAddr(lib, host) == Some(a) <==> exists b :: lib.parseAddr(host) == Some(b) && b.Unmap() == a;
    hide ParseCanonicalAddr;
    if value != "" && value[0] == '[' {
      BracketsAreUnique(lib, value);
    } else if lib.splitHostPort(value).Some? {
      assert WritesHost(lib, value, lib.splitHostPort(value).value);
    } else {
      assert WritesHost(lib, value, value);
    }
  }

  lemma ClosingBracket(host: string, rest: string)
    requires ']' !in host
    ensures var value, end := "[" + host + "]" + rest, |host| + 1;
            IndexOf(value, ']') == end && value[1..end] == host && value[end + 1..] == rest
  {
    var value := "[" + host + "]" + rest;
    assert value[|host| + 1] == ']';
    assert forall i :: 0 < i <= |host| ==> value[i] == host[i - 1];
  }

  lemma BracketsAreUnique(lib: Lib, value: string)
    requires value != "" && value[0] == '['
    ensures var end := IndexOf(value, ']');
            forall host :: WritesHost(lib, value, host)
                           <==> end < |value| && host == value[1..end] && (end + 1 == |value| || value[end + 1] == ':')
  {
    hide IndexOf;
    var end := IndexOf(value, ']');
    forall host | WritesHost(lib, value, host)
      ensures end < |value| && host == value[1..end] && (end + 1 == |value| || value[end + 1] == ':')
    {
      var rest: string :| value == "[" + host + "]" + rest && ']' !in host && (rest == "" || rest[0] == ':');
      ClosingBracket(host, rest);
    }
    if end < |value| && (end + 1 == |value| || value[end + 1] == ':') {
      var host, rest := value[1..end], value[end + 1..];
      assert value == "[" + host + "]" + rest;
      assert forall i :: 0 <= i < |host| ==> host[i] == value[i + 1];
      assert WritesHost(lib, value, host);
    }
  }

  /** A host in brackets is read whatever follows a colon behind it, and nothing else may follow. */
  lemma BracketedHop(lib: Lib, host: string, rest: string)
    requires ']' !in host && '"' !in host + rest && (rest != "" ==> !IsSpace(rest[|rest| - 1]))
    ensures ParseIPHop(lib, "[" + host + "]" + rest)
         == if rest == "" || rest[0] == ':' then ParseCanonicalAddr(lib, host) else None
  {
    var value := "[" + host + "]" + rest;
    TrimKeeps(value);
    ClosingBracket(host, rest);
    assert '"' !in value;
    assert Lower(value)[0] == '[' && Lower("unknown")[0] == 'u';
    hide Trim, Lower, IndexOf, ParseCanonicalAddr;
  }

  datatype Header = ForwardedHeader | XForwardedFor

  function SplitLine(h: Header, line: string): seq<string> {
    if h.ForwardedHeader? then Split(line, ',') else SplitPlain("", line, ',')
  }

  /** The parts of all the field lines, in order. */
  function Parts(h: Header, lines: seq<string>): seq<string> {
    if lines == [] then [] else SplitLine(h, lines[0]) + Parts(h, lines[1..])
  }

  /** The hop that one part names, if the part is well formed. */
  ghost function HopOf(lib: Lib, h: Header, part: string): (r: Option<ParsedAddr>)
    ensures r.Some? ==> !r.value.Is4In6()
  {
    var text := Trim(part);
    if text == "" then None
    else if h.XForwardedFor? then ParseIPHop(lib, text)
    else
      match ParseElement(text)
      case None => None
      case Some(v) => ParseIPHop(lib, v)
  }

  /** All the hops, or None when any part is malformed. */
  ghost function HopsOf(lib: Lib, h: Header, parts: seq<string>): (r: Option<seq<ParsedAddr>>)
    ensures r.Some? <==> forall i :: 0 <= i < |parts| ==> HopOf(lib, h, parts[i]).Some?
    ensures r.Some? ==>
              |r.value| == |parts| && forall i :: 0 <= i < |parts| ==> HopOf(lib, h, parts[i]) == Some(r.value[i])
  {
    hide HopOf;
    if forall i :: 0 <= i < |parts| ==> HopOf(lib, h, parts[i]).Some? then
      Some(seq(|parts|, i requires 0 <= i < |parts| && HopOf(lib, h, parts[i]).Some? => HopOf(lib, h, parts[i]).value))
    else None
  }

  ghost function ParseHeader(lib: Lib, h: Header, lines: seq<string>): (r: Option<seq<ParsedAddr>>)
    ensures r.Some? ==> forall a :: a in r.value ==> !a.Is4In6()
  {
    HopsOf(lib, h, Parts(h, lines))
  }

  lemma HopsAgree(lib: Lib, h: Header, parts: seq<string>, hops: seq<ParsedAddr>)
    requires |hops| == |parts| && forall i :: 0 <= i < |parts| ==> HopOf(lib, h, parts[i]) == Some(hops[i])
    ensures HopsOf(lib, h, parts) == Some(hops)
  {
    assert HopsOf(lib, h, parts).value == hops;
  }

  lemma OneBadPart(lib: Lib, h: Header, before: seq<string>, bad: string, after: seq<string>)
    requires HopOf(lib, h, bad).None?
    ensures HopsOf(lib, h, before + [bad] + after).None?
  {
    assert (before + [bad] + after)[|before|] == bad;
  }

  lemma Regroup(before: seq<string>, part: string, rest: seq<string>, later: seq<string>)
    ensures before + ([part] + rest) + later == before + [part] + (rest + later)
    ensures before + [part] + rest + later == before + [part] + (rest + later)
  {}

  lemma ForwardedHop(lib: Lib, part: string)
    ensures HopOf(lib, ForwardedHeader, part)
            == if Trim(part) == "" || ParseElement(Trim(part)).None? then None
               else ParseIPHop(lib, ParseElement(Trim(part)).value)
  {
    hide Trim, ParseElement, ParseIPHop;
  }

  lemma XForwardedHop(lib: Lib, part: string)
    ensures HopOf(lib, XForwardedFor, part) == if Trim(part) == "" then None else ParseIPHop(lib, Trim(part))
  {
    hide Trim, ParseIPHop;
  }

  /** parseForwardedForAddrs */
  method ParseForwardedForAddrs(lib: Lib, lines: seq<string>) returns (r: Option<seq<ParsedAddr>>)
    ensures r == ParseHeader(lib, ForwardedHeader, lines)
  {
    hide HopOf, HopsOf, ParseElement, ParseIPHop, Trim, Split;
    var h := ForwardedHeader;
    var hops: seq<ParsedAddr> := [];
    ghost var done: seq<string> := [];
    for i := 0 to |lines|
      invariant done + Parts(h, lines[i..]) == Parts(h, lines)
      invariant |hops| == |done| && forall k :: 0 <= k < |done| ==> HopOf(lib, h, done[k]) == Some(hops[k])
    {
      var elements := SplitIgnoringQuotes(lines[i], ',');
      ghost var later := Parts(h, lines[i + 1..]);
      assert lines[i..][1..] == lines[i + 1..];
      for j := 0 to |elements|
        invariant done + elements[j..] + later == Parts(h, lines)
        invariant |hops| == |done| && forall k :: 0 <= k < |done| ==> HopOf(lib, h, done[k]) == Some(hops[k])
      {
        var element := Trim(elements[j]);
        assert elements[j..] == [elements[j]] + elements[j + 1..];
        Regroup(done, elements[j], elements[j + 1..], later);
        var hop: Option<ParsedAddr> := None;
        if element != "" {
          var forParam := ParseForwardedElement(element);
          if forParam.Some? {
            hop := ParseIPHop(lib, forParam.value);
          }
        }
        ForwardedHop(lib, elements[j]);
        if hop.None? {
          OneBadPart(lib, h, done, elements[j], elements[j + 1..] + later);
          return None;
        }
        hops := hops + [hop.value];
        done := done + [elements[j]];
      }
    }
    assert lines[|lines|..] == [] && done + [] == done;
    HopsAgree(lib, h, done, hops);
    return Some(hops);
  }

  /** parseXForwardedForAddrs */
  method ParseXForwardedForAddrs(lib: Lib, lines: seq<string>) returns (r: Option<seq<ParsedAddr>>)
    ensures r == ParseHeader(lib, XForwardedFor, lines)
  {
    hide HopOf, HopsOf, ParseElement, ParseIPHop, Trim, SplitPlain;
    var h := XForwardedFor;
    var hops: seq<ParsedAddr> := [];
    ghost var done: seq<string> := [];
    for i := 0 to |lines|
      invariant done + Parts(h, lines[i..]) == Parts(h, lines)
      invariant |hops| == |done| && forall k :: 0 <= k < |done| ==> HopOf(lib, h, done[k]) == Some(hops[k])
    {
      var parts := SplitPlain("", lines[i], ',');
      ghost var later := Parts(h, lines[i + 1..]);
      assert lines[i..][1..] == lines[i + 1..];
      for j := 0 to |parts|
        invariant done + parts[j..] + later == Parts(h, lines)
        invariant |hops| == |done| && forall k :: 0 <= k < |done| ==> HopOf(lib, h, done[k]) == Some(hops[k])
      {
        var part := Trim(parts[j]);
        assert parts[j..] == [parts[j]] + parts[j + 1..];
        Regroup(done, parts[j], parts[j + 1..], later);
        var hop := if part == "" then None else ParseIPHop(lib, part);
        XForwardedHop(lib, parts[j]);
        if hop.None? {
          OneBadPart(lib, h, done, parts[j], parts[j + 1..] + later);
          return None;
        }
        hops := hops + [hop.value];
        done := done + [parts[j]];
      }
    }
    assert lines[|lines|..] == [] && done + [] == done;
    HopsAgree(lib, h, done, hops);
    return Some(hops);
  }

  // ---- Several field lines or one (section 5.3 of RFC 9110) ----

  /** The reader of quoted strings is outside quotes at the end of every line but the last. */
  ghost predicate Balanced(lines: seq<string>) {
    forall i :: 0 <= i < |lines| - 1 ==> End(Outside, lines[i]) == Outside
  }

  lemma {:induction false} JoinedParts(h: Header, lines: seq<string>)
    requires lines != [] && (h.XForwardedFor? || Balanced(lines))
    ensures Parts(h, [Join(lines, ',')]) == Parts(h, lines)
  {
    assert Parts(h, [Join(lines, ',')]) == SplitLine(h, Join(lines, ','));
    if |lines| > 1 {
      var first, rest := lines[0], lines[1..];
      JoinedParts(h, rest);
      assert Parts(h, [Join(rest, ',')]) == SplitLine(h, Join(rest, ','));
      if h.XForwardedFor? {
        SplitPlainAtSeparator("", first, Join(rest, ','), ',');
      } else {
        SplitAtSeparator(Outside, "", first, Join(rest, ','), ',');
      }
    } else {
      assert Join(lines, ',') == lines[0];
    }
  }

  /** X-Forwarded-For: lines and their join are the same header, for all inputs. */
  lemma XForwardedForJoins(lib: Lib, lines: seq<string>)
    requires lines != []
    ensures ParseHeader(lib, XForwardedFor, [Join(lines, ',')]) == ParseHeader(lib, XForwardedFor, lines)
  {
    JoinedParts(XForwardedFor, lines);
  }

  lemma {:induction false} PartsOfLine(h: Header, lines: seq<string>, k: nat)
    requires k < |lines|
    ensures forall part :: part in SplitLine(h, lines[k]) ==> part in Parts(h, lines)
  {
    if k > 0 {
      PartsOfLine(h, lines[1..], k - 1);
    }
  }

  /** A Forwarded line whose parts are all well formed leaves the reader outside quotes. */
  lemma AcceptedLineEndsOutside(lib: Lib, lines: seq<string>, k: nat)
    requires k < |lines| && ParseHeader(lib, ForwardedHeader, lines).Some?
    ensures End(Outside, lines[k]) == Outside
  {
    var parts := Split(lines[k], ',');
    EndOfLastPart(Outside, "", lines[k], ',');
    PartsOfLine(ForwardedHeader, lines, k);
    var last := parts[|parts| - 1];
    assert last in Parts(ForwardedHeader, lines);
    assert HopOf(lib, ForwardedHeader, last).Some?;
    ElementEndsOutside(Trim(last));
    EndOfTrimmed(last);
  }

  /** Forwarded: when the lines parse on their own, their join parses to the same hops. */
  lemma AcceptedLinesJoin(lib: Lib, lines: seq<string>)
    requires lines != [] && ParseHeader(lib, ForwardedHeader, lines).Some?
    ensures ParseHeader(lib, ForwardedHeader, [Join(lines, ',')]) == ParseHeader(lib, ForwardedHeader, lines)
  {
    forall i: nat | i < |lines| - 1 ensures End(Outside, lines[i]) == Outside {
      AcceptedLineEndsOutside(lib, lines, i);
    }
    JoinedParts(ForwardedHeader, lines);
  }

  /**
   * For every input: balanced lines and their join are the same header. Lines of which one but the last is not balanced
   * are malformed, so only a join that is accepted can differ from them.
   */
  lemma ForwardedJoinsExactlyWhen(lib: Lib, lines: seq<string>)
    requires lines != []
    ensures var joined := ParseHeader(lib, ForwardedHeader, [Join(lines, ',')]);
            var separate := ParseHeader(lib, ForwardedHeader, lines);
            && (Balanced(lines) ==> joined == separate)
            && (joined.Some? ==> (joined == separate <==> Balanced(lines)))
            && (!Balanced(lines) ==> separate.None?)
  {
    if Balanced(lines) {
      JoinedParts(ForwardedHeader, lines);
    } else if ParseHeader(lib, ForwardedHeader, lines).Some? {
      forall i: nat | i < |lines| - 1 ensures End(Outside, lines[i]) == Outside {
        AcceptedLineEndsOutside(lib, lines, i);
      }
    }
  }

  /** Further field lines in front only put their hops in front. */
  lemma LinesInFront(lib: Lib, h: Header, extra: seq<string>, lines: seq<string>)
    ensures var a, b, all := ParseHeader(lib, h, extra), ParseHeader(lib, h, lines), ParseHeader(lib, h, extra + lines);
            all == if a.Some? && b.Some? then Some(a.value + b.value) else None
  {
    PartsInFront(h, extra, lines);
    HopsInFront(lib, h, Parts(h, extra), Parts(h, lines));
  }

  lemma {:induction false} PartsInFront(h: Header, extra: seq<string>, lines: seq<string>)
    ensures Parts(h, extra + lines) == Parts(h, extra) + Parts(h, lines)
  {
    if extra == [] {
      assert extra + lines == lines;
    } else {
      PartsInFront(h, extra[1..], lines);
      assert (extra + lines)[1..] == extra[1..] + lines;
      Assoc(SplitLine(h, extra[0]), Parts(h, extra[1..]), Parts(h, lines));
    }
  }

  lemma HopsInFront(lib: Lib, h: Header, p: seq<string>, q: seq<string>)
    ensures HopsOf(lib, h, p + q) == if HopsOf(lib, h, p).Some? && HopsOf(lib, h, q).Some?
                                     then Some(HopsOf(lib, h, p).value + HopsOf(lib, h, q).value) else None
  {
    hide HopsOf, HopOf;
    var a, b := HopsOf(lib, h, p), HopsOf(lib, h, q);
    assert forall i :: 0 <= i < |p| ==> (p + q)[i] == p[i];
    assert forall i :: 0 <= i < |q| ==> (p + q)[|p| + i] == q[i];
    if a.Some? && b.Some? {
      HopsAgree(lib, h, p + q, a.value + b.value);
    }
  }

  // ---- X-Forwarded-For, printed and parsed ----

  lemma HopIgnoresSpaces(lib: Lib, text: string)
    ensures HopOf(lib, XForwardedFor, text) == ParseIPHop(lib, text)
  {
    TrimTwice(text);
    hide Trim;
  }

  /** A line joined from texts without commas is malformed exactly when one of them is no address; else it has all. */
  lemma TextsRoundTrip(lib: Lib, texts: seq<string>)
    requires texts != [] && forall i :: 0 <= i < |texts| ==> ',' !in texts[i]
    ensures var r := ParseHeader(lib, XForwardedFor, [Join(texts, ',')]);
            && (r.Some? <==> forall i :: 0 <= i < |texts| ==> ParseIPHop(lib, texts[i]).Some?)
            && (r.Some? ==>
                  && |r.value| == |texts|
                  && forall i :: 0 <= i < |texts| ==> Some(r.value[i]) == ParseIPHop(lib, texts[i]))
  {
    PlainOfJoin(texts, ',');
    assert Parts(XForwardedFor, [Join(texts, ',')]) == texts;
    forall i | 0 <= i < |texts| ensures HopOf(lib, XForwardedFor, texts[i]) == ParseIPHop(lib, texts[i]) {
      HopIgnoresSpaces(lib, texts[i]);
    }
    hide HopOf, ParseIPHop, Join, Parts;
  }
}
