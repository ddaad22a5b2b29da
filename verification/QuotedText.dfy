/** Quoted strings and the parameters of one Forwarded element (clientid.go). */
module QuotedText {
  import opened Text
  import opened HeaderText

  // ---- Quoted strings (section 5.6.4 of RFC 9110) ----

  /** What is left to read of a quoted string after its opening quote; cur is the value read so far. */
  function Unquote(cur: string, escaped: bool, s: string): Option<string>
    decreases |s|
  {
    if s == "" then None
    else if escaped then Unquote(cur + [s[0]], false, s[1..])
    else if s[0] == '\\' then Unquote(cur, true, s[1..])
    else if s[0] == '"' then if |s| == 1 then Some(cur) else None
    else Unquote(cur + [s[0]], false, s[1..])
  }

  function ParseQuoted(text: string): Option<string> {
    if |text| < 2 || text[0] != '"' then None else Unquote("", false, text[1..])
  }

  /** The loop of parseQuotedString, with its two flags. */
  method ParseQuotedString(text: string) returns (r: Option<string>)
    ensures r == ParseQuoted(text)
  {
    if |text| < 2 || text[0] != '"' {
      return None;
    }
    var b := "";
    var escaped, closed := false, false;
    for i := 1 to |text|
      invariant closed ==> !escaped
      invariant !closed ==> Unquote(b, escaped, text[i..]) == ParseQuoted(text)
      invariant closed ==> ParseQuoted(text) == if i == |text| then Some(b) else None
    {
      var c := text[i];
      assert text[i..][1..] == text[i + 1..];
      if closed {
        return None;
      }
      if escaped {
        b := b + [c];
        escaped := false;
      } else if c == '\\' {
        escaped := true;
      } else if c == '"' {
        closed := true;
      } else {
        b := b + [c];
      }
    }
    if escaped || !closed {
      return None;
    }
    return Some(b);
  }

  /** The grammar of what stands between the quotes: body is a way to write s, character by character. */
  predicate Quotes(body: string, s: string)
    decreases |body|
  {
    if body == "" then s == ""
    else if body[0] == '\\' then |body| >= 2 && s != "" && body[1] == s[0] && Quotes(body[2..], s[1..])
    else body[0] != '"' && s != "" && body[0] == s[0] && Quotes(body[1..], s[1..])
  }

  lemma {:induction false} UnquoteIsQuotes(cur: string, rest: string, s: string)
    ensures Unquote(cur, false, rest) == Some(cur + s)
            <==> rest != "" && rest[|rest| - 1] == '"' && Quotes(rest[..|rest| - 1], s)
    decreases |rest|
  {
    if rest == "" {
    } else if rest[0] == '\\' {
      if |rest| >= 3 {
        var tail := rest[2..];
        assert rest[1..][1..] == tail;
        if s != "" && s[0] == rest[1] {
          UnquoteIsQuotes(cur + [rest[1]], tail, s[1..]);
          assert cur + [rest[1]] + s[1..] == cur + s;
          assert rest[..|rest| - 1][2..] == tail[..|tail| - 1];
        } else {
          NotThisOne(cur, rest[1], tail, s);
        }
      } else if |rest| == 2 {
        assert Unquote(cur, true, rest[1..]) == Unquote(cur + [rest[1]], false, rest[1..][1..]);
      }
    } else if rest[0] == '"' {
      if |rest| > 1 {
        assert rest[..|rest| - 1][0] == '"';
      } else {
        assert cur + s == cur <==> s == "";
      }
    } else if |rest| > 1 {
      var tail := rest[1..];
      if s != "" && s[0] == rest[0] {
        UnquoteIsQuotes(cur + [rest[0]], tail, s[1..]);
        assert cur + [rest[0]] + s[1..] == cur + s;
        assert rest[..|rest| - 1][1..] == tail[..|tail| - 1];
      } else {
        NotThisOne(cur, rest[0], tail, s);
      }
    }
  }

  lemma NotThisOne(cur: string, c: char, rest: string, s: string)
    requires s == "" || s[0] != c
    ensures Unquote(cur + [c], false, rest) != Some(cur + s)
  {
    UnquoteExtends(cur + [c], rest);
    assert (cur + [c])[|cur|] == c;
  }

  lemma {:induction false} UnquoteExtends(cur: string, rest: string)
    ensures Unquote(cur, false, rest).Some? ==> cur <= Unquote(cur, false, rest).value
    decreases |rest|
  {
    if rest == "" || rest[0] == '"' {
    } else if rest[0] == '\\' {
      if |rest| > 1 {
        UnquoteExtends(cur + [rest[1]], rest[1..][1..]);
      }
    } else {
      UnquoteExtends(cur + [rest[0]], rest[1..]);
    }
  }

  /** parseQuotedString accepts exactly a quoted string, and yields exactly what it writes. */
  lemma ParseQuotedExactlyWhen(text: string, s: string)
    ensures ParseQuoted(text) == Some(s)
            <==> |text| >= 2 && text[0] == '"' && text[|text| - 1] == '"' && Quotes(text[1..|text| - 1], s)
  {
    if |text| >= 2 {
      var rest := text[1..];
      UnquoteIsQuotes("", rest, s);
      assert "" + s == s;
      assert rest[..|rest| - 1] == text[1..|text| - 1];
    }
  }

  /** A quote and a backslash are escaped, everything else stands for itself. */
  function Escape(s: string): string {
    if s == "" then ""
    else (if s[0] == '"' || s[0] == '\\' then ['\\', s[0]] else [s[0]]) + Escape(s[1..])
  }

  lemma {:induction false} EscapeQuotes(s: string)
    ensures Quotes(Escape(s), s)
  {
    if s != "" {
      EscapeQuotes(s[1..]);
      var rest, body := Escape(s[1..]), Escape(s);
      if s[0] == '"' || s[0] == '\\' {
        assert body == ['\\', s[0]] + rest;
        assert body[2..] == rest;
      } else {
        assert body[1..] == rest;
      }
    }
  }

  /** Unquoting undoes quoting, for every text. */
  lemma QuoteRoundTrip(s: string)
    ensures ParseQuoted("\"" + Escape(s) + "\"") == Some(s)
  {
    EscapeQuotes(s);
    var text := "\"" + Escape(s) + "\"";
    assert text[1..|text| - 1] == Escape(s);
    ParseQuotedExactlyWhen(text, s);
  }

  /** Between the quotes nothing separates, and the reader stays inside. */
  lemma {:induction false} QuotesStayInside(body: string, s: string, sep: char)
    requires Quotes(body, s)
    ensures End(Inside, body) == Inside && Solid(Inside, body, sep)
    decreases |body|
  {
    if body != "" {
      if body[0] == '\\' {
        QuotesStayInside(body[2..], s[1..], sep);
        assert body[1..][1..] == body[2..];
      } else {
        QuotesStayInside(body[1..], s[1..], sep);
      }
    }
  }

  // ---- Parameters (section 4 of RFC 7239) ----

  /** unquoteForwardedValue */
  function UnquoteValue(text: string): Option<string> {
    if text == "" then None
    else if text[0] == '"' then ParseQuoted(text)
    else if IsToken(text) then Some(text) else None
  }

  method UnquoteForwardedValue(text: string) returns (r: Option<string>)
    ensures r == UnquoteValue(text)
  {
    if text == "" {
      return None;
    }
    if text[0] == '"' {
      r := ParseQuotedString(text);
      return;
    }
    if !IsToken(text) {
      return None;
    }
    return Some(text);
  }

  /** The position of the first c in s, or the length of s. */
  function IndexOf(s: string, c: char): (n: nat)
    ensures n <= |s| && (n < |s| ==> s[n] == c)
    ensures forall i :: 0 <= i < n ==> s[i] != c
  {
    if s == "" || s[0] == c then 0 else
      var n := IndexOf(s[1..], c);
      assert forall i :: 0 < i < n + 1 ==> s[i] == s[1..][i - 1];
      n + 1
  }

  datatype Pair = Pair(key: string, value: string)

  /** One parameter: a token, an equals sign, and a token or quoted string that is not empty. */
  function ParsePair(part: string): Option<Pair> {
    var pair := Trim(part);
    var n := IndexOf(pair, '=');
    if pair == "" || n == |pair| then None
    else
      var key := Lower(Trim(pair[..n]));
      var value := UnquoteValue(Trim(pair[n + 1..]));
      if IsToken(key) && value.Some? && value.value != "" then Some(Pair(key, value.value)) else None
  }

  /** Every part is a parameter, no two have the same key, and there is one named for. */
  ghost predicate Accepted(parts: seq<string>) {
    && (forall i :: 0 <= i < |parts| ==> ParsePair(parts[i]).Some?)
    && (forall i, j :: 0 <= i < j < |parts| ==> ParsePair(parts[i]).value.key != ParsePair(parts[j]).value.key)
    && exists i :: 0 <= i < |parts| && ParsePair(parts[i]).value.key == "for"
  }

  /** The value of the for parameter of an element. */
  ghost function ParseElement(element: string): (r: Option<string>)
  {
    var parts := Split(element, ';');
    if Accepted(parts) then
      var i :| 0 <= i < |parts| && ParsePair(parts[i]).value.key == "for";
      Some(ParsePair(parts[i]).value.value)
    else None
  }

  /** parseForwardedElement, with its set of seen keys. */
  method ParseForwardedElement(element: string) returns (r: Option<string>)
    ensures r == ParseElement(element)
  {
    hide Trim, UnquoteValue, IsToken, IndexOf, Split, Lower;
    var forVal := "";
    var seenFor := false;
    var seen: set<string> := {};
    ghost var at := 0;
    var parts := SplitIgnoringQuotes(element, ';');
    for k := 0 to |parts|
      invariant forall i :: 0 <= i < k ==> ParsePair(parts[i]).Some?
      invariant forall i, j :: 0 <= i < j < k ==> ParsePair(parts[i]).value.key != ParsePair(parts[j]).value.key
      invariant seen == set i | 0 <= i < k :: ParsePair(parts[i]).value.key
      invariant seenFor <==> "for" in seen
      invariant seenFor ==> 0 <= at < k && ParsePair(parts[at]).value == Pair("for", forVal)
    {
      var pair := Trim(parts[k]);
      if pair == "" {
        return None;
      }
      var n := IndexOf(pair, '=');
      if n == |pair| {
        return None;
      }
      var key := Lower(Trim(pair[..n]));
      if !IsToken(key) || key in seen {
        return None;
      }
      seen := seen + {key};
      var unquoted := UnquoteForwardedValue(Trim(pair[n + 1..]));
      if unquoted.None? || unquoted.value == "" {
        return None;
      }
      assert ParsePair(parts[k]) == Some(Pair(key, unquoted.value));
      if key == "for" {
        forVal := unquoted.value;
        seenFor := true;
        at := k;
      }
    }
    if !seenFor {
      return None;
    }
    return Some(forVal);
  }

  /** Keys are distinct, so the for parameter is the only one it could be. */
  lemma ElementMeaning(element: string, k: nat)
    requires var parts := Split(element, ';');
             && k < |parts| && (forall i :: 0 <= i < |parts| ==> ParsePair(parts[i]).Some?)
             && (forall i, j :: 0 <= i < j < |parts| ==> ParsePair(parts[i]).value.key != ParsePair(parts[j]).value.key)
             && ParsePair(parts[k]).value.key == "for"
    ensures ParseElement(element) == Some(ParsePair(Split(element, ';')[k]).value.value)
  {}

  // ---- Accepted text ends outside quotes ----

  lemma {:induction false} QuoteFreeText(s: string)
    requires forall i :: 0 <= i < |s| ==> s[i] != '"'
    ensures End(Outside, s) == Outside
  {
    if s != "" {
      QuoteFreeText(s[1..]);
    }
  }

  lemma ValueEndsOutside(text: string)
    requires UnquoteValue(text).Some?
    ensures End(Outside, text) == Outside
  {
    if text[0] == '"' {
      var s := UnquoteValue(text).value;
      ParseQuotedExactlyWhen(text, s);
      var body := text[1..|text| - 1];
      QuotesStayInside(body, s, ',');
      EndAppend(Inside, body, "\"");
      assert text[1..] == body + "\"";
      assert End(Inside, "\"") == Outside;
    } else {
      assert forall i :: 0 <= i < |text| ==> IsTchar(text[i]);
      QuoteFreeText(text);
    }
  }

  lemma LowerToken(s: string)
    ensures IsToken(Lower(s)) <==> IsToken(s)
  {}

  lemma PairEndsOutside(part: string)
    requires ParsePair(part).Some?
    ensures End(Outside, part) == Outside
  {
    var pair := Trim(part);
    var n := IndexOf(pair, '=');
    var key, value := pair[..n], pair[n + 1..];
    LowerToken(Trim(key));
    QuoteFreeText(Trim(key));
    EndOfTrimmed(key);
    ValueEndsOutside(Trim(value));
    EndOfTrimmed(value);
    EndAppend(Outside, key, ['='] + value);
    assert (['='] + value)[1..] == value;
    assert pair == key + (['='] + value);
    EndOfTrimmed(part);
  }

  /** An accepted element leaves the reader outside quotes. */
  lemma ElementEndsOutside(element: string)
    requires ParseElement(element).Some?
    ensures End(Outside, element) == Outside
  {
    hide ParsePair, SplitQuoted;
    EndOfLastPart(Outside, "", element, ';');
    var parts := Split(element, ';');
    assert Accepted(parts);
    PairEndsOutside(parts[|parts| - 1]);
  }

  // ---- The grammar of a parameter ----

  /** value is written by text, as a token or between quotes. */
  ghost predicate WritesValue(text: string, value: string) {
    || (text == value && IsToken(text))
    || exists body: string :: text == "\"" + body + "\"" && Quotes(body, value)
  }

  lemma UnquoteExactlyWhen(text: string, value: string)
    ensures UnquoteValue(text) == Some(value) <==> WritesValue(text, value)
  {
    ParseQuotedExactlyWhen(text, value);
    if text != "" && text[0] == '"' {
      if UnquoteValue(text) == Some(value) {
        var body := text[1..|text| - 1];
        assert text == "\"" + body + "\"";
      }
      if body: string :| text == "\"" + body + "\"" && Quotes(body, value) {
        assert text[1..|text| - 1] == body;
      }
      assert !IsToken(text) by { assert !IsTchar(text[0]); }
    } else {
      assert forall body: string :: text != "\"" + body + "\"";
    }
  }

  /** A part is a parameter exactly when it is a token and a value that is not empty, with an equals sign in between. */
  lemma PairExactlyWhen(part: string, pair: Pair)
    ensures ParsePair(part) == Some(pair)
            <==> exists name: string, text: string ::
                   && Trim(part) == name + "=" + text && '=' !in name && IsToken(Trim(name))
                   && pair.key == Lower(Trim(name)) && pair.value != "" && WritesValue(Trim(text), pair.value)
  {
    var whole := Trim(part);
    var n := IndexOf(whole, '=');
    if n < |whole| {
      var name, text := whole[..n], whole[n + 1..];
      assert whole == name + "=" + text;
      LowerToken(Trim(name));
      UnquoteExactlyWhen(Trim(text), pair.value);
      hide Trim, IsToken, Lower, UnquoteValue, WritesValue;
      forall name': string, text': string | whole == name' + "=" + text' && '=' !in name'
        ensures name' == name && text' == text
      {
        FirstIsUnique(name', text', n);
      }
    } else {
      hide Trim, IsToken, Lower, UnquoteValue, WritesValue;
      forall name': string, text': string ensures whole != name' + "=" + text' {
        assert (name' + "=" + text')[|name'|] == '=';
      }
    }
  }

  lemma FirstIsUnique(name: string, text: string, n: nat)
    requires '=' !in name && n == IndexOf(name + "=" + text, '=')
    ensures n == |name| && (name + "=" + text)[..n] == name && (name + "=" + text)[n + 1..] == text
  {
    var whole := name + "=" + text;
    assert whole[|name|] == '=';
    assert forall i :: 0 <= i < |name| ==> whole[i] == name[i];
  }
}
