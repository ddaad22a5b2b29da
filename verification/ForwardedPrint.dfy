/** Printing Forwarded elements, and the round trip through the parser (section 4 of RFC 7239). */
module ForwardedPrint {
  import opened Text
  import opened HeaderText
  import opened QuotedText
  import opened Forwarded

  /** A value is written as a bare token or between quotes, where any character may be escaped. */
  datatype Form = Bare | Quoted(body: string)

  datatype Param = Param(key: string, value: string, form: Form)
  {
    predicate Good() {
      && IsToken(key) && value != ""
      && match form
         case Bare => IsToken(value)
         case Quoted(body) => Quotes(body, value)
    }

    function Text(): string {
      match form
      case Bare => value
      case Quoted(body) => "\"" + body + "\""
    }

    function Print(): string {
      key + ("=" + Text())
    }
  }

  /** Every value can be printed, with quotes and backslashes escaped. */
  lemma EscapedIsGood(key: string, value: string)
    requires IsToken(key) && value != ""
    ensures Param(key, value, Quoted(Escape(value))).Good()
  {}

  type Element = seq<Param>

  /** Parameters with distinct names, whatever their case, one of which is named for. */
  ghost predicate GoodElement(e: Element) {
    && (forall i :: 0 <= i < |e| ==> e[i].Good())
    && (forall i, j :: 0 <= i < j < |e| ==> !EqualFold(e[i].key, e[j].key))
    && exists i :: 0 <= i < |e| && EqualFold(e[i].key, "for")
  }

  ghost function ForValue(e: Element): string
    requires GoodElement(e)
  {
    var i :| 0 <= i < |e| && EqualFold(e[i].key, "for");
    e[i].value
  }

  function Printed(e: Element): (r: seq<string>)
    ensures |r| == |e| && forall i :: 0 <= i < |r| ==> r[i] == e[i].Print()
  {
    seq(|e|, i requires 0 <= i < |e| => e[i].Print())
  }

  function PrintElement(e: Element): string {
    Join(Printed(e), ';')
  }

  function PrintedElements(es: seq<Element>): (r: seq<string>)
    ensures |r| == |es| && forall i :: 0 <= i < |r| ==> r[i] == PrintElement(es[i])
  {
    seq(|es|, i requires 0 <= i < |es| => PrintElement(es[i]))
  }

  function PrintLine(es: seq<Element>): string {
    Join(PrintedElements(es), ',')
  }

  // ---- Texts that split nowhere ----

  /** No space at either end, no separator outside quotes, and the reader ends outside quotes. */
  ghost predicate Tight(s: string) {
    s != "" && !IsSpace(s[0]) && !IsSpace(s[|s| - 1]) && End(Outside, s) == Outside
  }

  lemma {:induction false} PlainIsSolid(s: string, sep: char)
    requires forall i :: 0 <= i < |s| ==> s[i] != '"' && s[i] != sep
    ensures Solid(Outside, s, sep) && End(Outside, s) == Outside
  {
    if s != "" {
      PlainIsSolid(s[1..], sep);
    }
  }

  lemma TokenIsSolid(s: string, sep: char)
    requires IsToken(s) && !IsTchar(sep)
    ensures Solid(Outside, s, sep) && Tight(s) && Trim(s) == s
  {
    assert IsTchar(s[0]) && IsTchar(s[|s| - 1]);
    forall i | 0 <= i < |s| ensures s[i] != '"' && s[i] != sep {
      assert IsTchar(s[i]);
    }
    PlainIsSolid(s, sep);
    TrimKeeps(s);
  }

  lemma ValueIsSolid(p: Param, sep: char)
    requires p.Good() && !IsTchar(sep)
    ensures Solid(Outside, p.Text(), sep) && Tight(p.Text()) && Trim(p.Text()) == p.Text()
    ensures UnquoteValue(p.Text()) == Some(p.value)
  {
    if p.form.Quoted? {
      var body, text := p.form.body, p.Text();
      QuotesStayInside(body, p.value, sep);
      SolidAppend(Inside, body, "\"", sep);
      EndAppend(Inside, body, "\"");
      assert End(Inside, "\"") == Outside;
      assert text[1..] == body + "\"" && text[1..|text| - 1] == body;
      ParseQuotedExactlyWhen(text, p.value);
      TrimKeeps(text);
    } else {
      TokenIsSolid(p.value, sep);
      assert IsTchar(p.value[0]);
    }
  }

  lemma ParamIsSolid(p: Param, sep: char)
    requires p.Good() && !IsTchar(sep) && sep != '='
    ensures Solid(Outside, p.Print(), sep) && Tight(p.Print()) && Trim(p.Print()) == p.Print()
  {
    TokenIsSolid(p.key, sep);
    ValueIsSolid(p, sep);
    var rest := "=" + p.Text();
    assert rest[1..] == p.Text();
    SolidAppend(Outside, p.key, rest, sep);
    EndAppend(Outside, p.key, rest);
    TrimKeeps(p.Print());
  }

  /** A printed parameter is cut and unquoted into its key and value. */
  lemma ParamRoundTrip(p: Param)
    requires p.Good()
    ensures ParsePair(p.Print()) == Some(Pair(Lower(p.key), p.value))
  {
    hide Trim, Solid, End, UnquoteValue, Quotes, IndexOf, IsSpace, Tight;
    ParamIsSolid(p, ';');
    TokenIsSolid(p.key, ';');
    ValueIsSolid(p, ';');
    LowerToken(p.key);
    var s, n := p.Print(), IndexOf(p.Print(), '=');
    forall i | 0 <= i < |p.key| ensures s[i] != '=' {
      assert IsTchar(p.key[i]);
    }
    assert s[|p.key|] == '=';
    assert n == |p.key|;
    assert s[..n] == p.key && s[n + 1..] == p.Text();
  }

  // ---- Joins of such texts ----

  lemma {:induction false} JoinIsSolid(parts: seq<string>, sep: char, other: char)
    requires parts != [] && sep != other && sep != '"' && !IsSpace(sep)
    requires forall i :: 0 <= i < |parts| ==> Solid(Outside, parts[i], other) && Tight(parts[i])
    ensures Solid(Outside, Join(parts, sep), other) && Tight(Join(parts, sep))
  {
    if |parts| > 1 {
      var first, rest := parts[0], Join(parts[1..], sep);
      JoinIsSolid(parts[1..], sep, other);
      var tail := [sep] + rest;
      assert tail[1..] == rest;
      SolidAppend(Outside, first, tail, other);
      EndAppend(Outside, first, tail);
      assert first + [sep] + rest == first + tail;
    }
  }

  lemma PrintedAreSolid(e: Element, sep: char)
    requires GoodElement(e) && !IsTchar(sep) && sep != '='
    ensures Printed(e) != [] && forall i :: 0 <= i < |e| ==> Solid(Outside, Printed(e)[i], sep) && Tight(Printed(e)[i])
  {
    forall i | 0 <= i < |e| ensures Solid(Outside, Printed(e)[i], sep) && Tight(Printed(e)[i]) {
      ParamIsSolid(e[i], sep);
    }
  }

  lemma ElementIsSolid(e: Element)
    requires GoodElement(e)
    ensures Solid(Outside, PrintElement(e), ',') && Tight(PrintElement(e)) && Trim(PrintElement(e)) == PrintElement(e)
    ensures Split(PrintElement(e), ';') == Printed(e)
  {
    hide GoodElement, Solid, Split, Trim, Join;
    PrintedAreSolid(e, ',');
    PrintedAreSolid(e, ';');
    JoinIsSolid(Printed(e), ';', ',');
    SplitOfJoin(Printed(e), ';');
    TrimKeeps(PrintElement(e));
  }

  lemma ForIsLower()
    ensures Lower("for") == "for"
  {}

  lemma ForValueIs(e: Element, k: nat)
    requires GoodElement(e) && k < |e| && EqualFold(e[k].key, "for")
    ensures ForValue(e) == e[k].value
  {}

  lemma PrintedParts(e: Element)
    requires GoodElement(e)
    ensures forall i :: 0 <= i < |e| ==> ParsePair(Printed(e)[i]) == Some(Pair(Lower(e[i].key), e[i].value))
  {
    forall i | 0 <= i < |e| ensures ParsePair(Printed(e)[i]) == Some(Pair(Lower(e[i].key), e[i].value)) {
      ParamRoundTrip(e[i]);
    }
  }

  /** A printed element is parsed to the value of its for parameter. */
  lemma ElementRoundTrip(e: Element)
    requires GoodElement(e)
    ensures ParseElement(PrintElement(e)) == Some(ForValue(e))
  {
    hide ParsePair, Split, PrintElement, Tight, Solid, Trim, ParseElement, Lower, ForValue;
    ElementIsSolid(e);
    PrintedParts(e);
    ForIsLower();
    var k :| 0 <= k < |e| && EqualFold(e[k].key, "for");
    ForValueIs(e, k);
    var parts := Split(PrintElement(e), ';');
    assert ParsePair(parts[k]) == Some(Pair("for", e[k].value));
    ElementMeaning(PrintElement(e), k);
  }

  lemma PartRoundTrip(lib: Lib, e: Element)
    requires GoodElement(e)
    ensures HopOf(lib, ForwardedHeader, PrintElement(e)) == ParseIPHop(lib, ForValue(e))
  {
    ElementIsSolid(e);
    ElementRoundTrip(e);
  }

  lemma LineParts(es: seq<Element>)
    requires es != [] && forall i :: 0 <= i < |es| ==> GoodElement(es[i])
    ensures Parts(ForwardedHeader, [PrintLine(es)]) == PrintedElements(es)
  {
    forall i | 0 <= i < |es|
      ensures Solid(Outside, PrintedElements(es)[i], ',') && End(Outside, PrintedElements(es)[i]) == Outside
    {
      ElementIsSolid(es[i]);
    }
    SplitOfJoin(PrintedElements(es), ',');
  }

  /** What was printed as one field line comes back as its for values, in order, each read as a hop. */
  lemma LineRoundTrip(lib: Lib, es: seq<Element>)
    requires es != [] && forall i :: 0 <= i < |es| ==> GoodElement(es[i])
    ensures var r := ParseHeader(lib, ForwardedHeader, [PrintLine(es)]);
            && (r.Some? <==> forall i :: 0 <= i < |es| ==> ParseIPHop(lib, ForValue(es[i])).Some?)
            && (r.Some? ==>
                  && |r.value| == |es|
                  && forall i :: 0 <= i < |es| ==> Some(r.value[i]) == ParseIPHop(lib, ForValue(es[i])))
  {
    LineParts(es);
    var parts := PrintedElements(es);
    forall i | 0 <= i < |es|
      ensures parts[i] == PrintElement(es[i])
              && HopOf(lib, ForwardedHeader, parts[i]) == ParseIPHop(lib, ForValue(es[i]))
    {
      PartRoundTrip(lib, es[i]);
    }
    hide HopOf, ParseIPHop, PrintLine, PrintedElements, PrintElement, Parts, GoodElement, ForValue;
    assert ParseHeader(lib, ForwardedHeader, [PrintLine(es)]) == HopsOf(lib, ForwardedHeader, parts);
  }

  // ---- A value quoted across two field lines ----

  /** The text of a printed element up to a comma within its last, quoted, value. */
  function UpTo(p: Param, key: string, before: string): string {
    p.Print() + [';'] + (key + ("=" + ("\"" + before)))
  }

  lemma UpToIsInside(p: Param, key: string, before: string, value: string)
    requires p.Good() && IsToken(key) && Quotes(before, value)
    ensures End(Outside, UpTo(p, key, before)) == Inside
  {
    var quoted := "\"" + before;
    var text, rest := "=" + quoted, key + ("=" + quoted);
    ParamIsSolid(p, ',');
    TokenIsSolid(key, ',');
    QuotesStayInside(before, value, ',');
    assert quoted[1..] == before && text[1..] == quoted;
    assert End(Outside, quoted) == End(Inside, before);
    EndAppend(Outside, key, text);
    EndAppend(Outside, p.Print(), [';'] + rest);
    assert ([';'] + rest)[1..] == rest;
    assert p.Print() + [';'] + rest == p.Print() + ([';'] + rest);
  }

  /** Joining lines is not harmless when a quoted value runs across them: the join is accepted, the lines are not. */
  lemma QuotedAcrossLines(lib: Lib, p: Param, q: Param, before: string, after: string, value: string)
    requires GoodElement([p, q]) && q.form == Quoted(before + [','] + after) && Quotes(before, value)
    requires ParseIPHop(lib, ForValue([p, q])).Some?
    ensures var lines := [UpTo(p, q.key, before), after + "\""];
            && ParseHeader(lib, ForwardedHeader, lines).None?
            && ParseHeader(lib, ForwardedHeader, [Join(lines, ',')]).Some?
  {
    var e, lines := [p, q], [UpTo(p, q.key, before), after + "\""];
    assert e[0].Good() && e[1].Good();
    UpToIsInside(p, q.key, before, value);
    SmallLine(p, q, before, after);
    hide ParseIPHop, ParseHeader, PrintLine, Join, GoodElement, ForValue, UpTo, IsToken, Quotes, End;
    assert !Balanced(lines);
    ForwardedJoinsExactlyWhen(lib, lines);
    LineRoundTrip(lib, [e]);
  }

  lemma JoinTwo(a: string, b: string, sep: char)
    ensures Join([a, b], sep) == a + [sep] + b
  {}

  lemma SmallElement(p: Param, q: Param)
    ensures PrintLine([[p, q]]) == p.Print() + [';'] + q.Print()
  {
    assert Printed([p, q]) == [p.Print(), q.Print()];
    JoinTwo(p.Print(), q.Print(), ';');
    assert PrintedElements([[p, q]]) == [PrintElement([p, q])];
  }

  lemma SmallLine(p: Param, q: Param, before: string, after: string)
    requires q.form == Quoted(before + [','] + after)
    ensures PrintLine([[p, q]]) == Join([UpTo(p, q.key, before), after + "\""], ',')
  {
    SmallElement(p, q);
    JoinTwo(UpTo(p, q.key, before), after + "\"", ',');
    Reassociate(p.Print() + [';'], q.key, before, after, "\"");
    hide PrintLine, Join;
  }

  lemma Reassociate(front: string, key: string, before: string, after: string, quote: string)
    ensures front + (key + ("=" + (quote + (before + [','] + after) + quote)))
         == front + (key + ("=" + (quote + before))) + [','] + (after + quote)
  {}
}
