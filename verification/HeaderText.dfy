/** The lexical layer of the header parsers in clientid.go, over ASCII text. */
module HeaderText {
  predicate IsSpace(c: char) {
    c == ' ' || c == '\t' || c == '\n' || c == '\r' || c as int == 11 || c as int == 12
  }

  function TrimLeft(s: string): string {
    if s != "" && IsSpace(s[0]) then TrimLeft(s[1..]) else s
  }

  function TrimRight(s: string): string {
    if s != "" && IsSpace(s[|s| - 1]) then TrimRight(s[..|s| - 1]) else s
  }

  /** strings.TrimSpace */
  function Trim(s: string): string {
    TrimRight(TrimLeft(s))
  }

  /** A token character (section 5.6.2 of RFC 9110). */
  predicate IsTchar(c: char) {
    || c in {'!', '#', '$', '%', '&', '\'', '*', '+', '-', '.', '^', '_', '`', '|', '~'}
    || '0' <= c <= '9' || 'A' <= c <= 'Z' || 'a' <= c <= 'z'
  }

  predicate IsToken(s: string) {
    s != "" && forall i :: 0 <= i < |s| ==> IsTchar(s[i])
  }

  function Join(parts: seq<string>, sep: char): string {
    if parts == [] then ""
    else if |parts| == 1 then parts[0]
    else parts[0] + [sep] + Join(parts[1..], sep)
  }

  /** strings.Split on one character; cur is the part read so far. */
  function SplitPlain(cur: string, s: string, sep: char): seq<string>
    decreases |s|
  {
    if s == "" then [cur]
    else if s[0] == sep then [cur] + SplitPlain("", s[1..], sep)
    else SplitPlain(cur + [s[0]], s[1..], sep)
  }

  /** Where a reader of quoted strings stands (section 5.6.4 of RFC 9110). */
  datatype Quote = Outside | Inside | Escaped

  function Step(q: Quote, c: char): Quote {
    match q
    case Escaped => Inside
    case Inside => if c == '\\' then Escaped else if c == '"' then Outside else Inside
    case Outside => if c == '"' then Inside else Outside
  }

  function End(q: Quote, s: string): Quote
    decreases |s|
  {
    if s == "" then q else End(Step(q, s[0]), s[1..])
  }

  /** Whether a character separates when the reader stands at q. */
  predicate Separates(q: Quote, c: char, sep: char) {
    q == Outside && c == sep && c != '"'
  }

  /** splitIgnoringQuotes from the given state; cur is the part read so far. */
  function SplitQuoted(q: Quote, cur: string, s: string, sep: char): seq<string>
    decreases |s|
  {
    if s == "" then [cur]
    else if Separates(q, s[0], sep) then [cur] + SplitQuoted(Outside, "", s[1..], sep)
    else SplitQuoted(Step(q, s[0]), cur + [s[0]], s[1..], sep)
  }

  function Split(value: string, sep: char): seq<string> {
    SplitQuoted(Outside, "", value, sep)
  }

  /** The loop of splitIgnoringQuotes, with its two flags. */
  method SplitIgnoringQuotes(value: string, sep: char) returns (parts: seq<string>)
    ensures parts == Split(value, sep)
  {
    parts := [];
    var b := "";
    var inQuotes, escaped := false, false;
    for i := 0 to |value|
      invariant escaped ==> inQuotes
      invariant var q := if escaped then Escaped else if inQuotes then Inside else Outside;
                parts + SplitQuoted(q, b, value[i..], sep) == Split(value, sep)
    {
      var c := value[i];
      assert value[i..][1..] == value[i + 1..];
      if escaped {
        b := b + [c];
        escaped := false;
      } else if inQuotes && c == '\\' {
        b := b + [c];
        escaped := true;
      } else if c == '"' {
        inQuotes := !inQuotes;
        b := b + [c];
      } else if c == sep && !inQuotes {
        assert SplitQuoted(Outside, b, value[i..], sep) == [b] + SplitQuoted(Outside, "", value[i + 1..], sep);
        parts := parts + [b];
        b := "";
      } else {
        b := b + [c];
      }
    }
    parts := parts + [b];
  }

  // ---- Splitting and joining ----

  lemma {:induction false} EndAppend(q: Quote, a: string, b: string)
    ensures End(q, a + b) == End(End(q, a), b)
    decreases |a|
  {
    if a == "" {
      assert a + b == b;
    } else {
      EndAppend(Step(q, a[0]), a[1..], b);
      assert (a + b)[1..] == a[1..] + b;
    }
  }

  /** No character of s separates when s is read from q. */
  predicate Solid(q: Quote, s: string, sep: char)
    decreases |s|
  {
    s == "" || (!Separates(q, s[0], sep) && Solid(Step(q, s[0]), s[1..], sep))
  }

  lemma {:induction false} SolidAppend(q: Quote, a: string, b: string, sep: char)
    ensures Solid(q, a + b, sep) <==> Solid(q, a, sep) && Solid(End(q, a), b, sep)
    decreases |a|
  {
    if a == "" {
      assert a + b == b;
    } else {
      SolidAppend(Step(q, a[0]), a[1..], b, sep);
      assert (a + b)[1..] == a[1..] + b;
    }
  }

  /** Reading a solid text only extends the current part. */
  lemma {:induction false} SplitSolid(q: Quote, cur: string, a: string, rest: string, sep: char)
    requires Solid(q, a, sep)
    ensures SplitQuoted(q, cur, a + rest, sep) == SplitQuoted(End(q, a), cur + a, rest, sep)
    decreases |a|
  {
    if a == "" {
      assert a + rest == rest && cur + a == cur;
    } else {
      SplitSolid(Step(q, a[0]), cur + [a[0]], a[1..], rest, sep);
      assert (a + rest)[1..] == a[1..] + rest;
      assert cur + [a[0]] + a[1..] == cur + a;
    }
  }

  /** Parts without a separator of their own, ended outside quotes: what is joined from them is split into them. */
  ghost predicate Clean(parts: seq<string>, sep: char) {
    forall i :: 0 <= i < |parts| ==> Solid(Outside, parts[i], sep) && End(Outside, parts[i]) == Outside
  }

  /** Split undoes Join on clean parts. */
  lemma {:induction false} SplitOfJoin(parts: seq<string>, sep: char)
    requires parts != [] && Clean(parts, sep) && sep != '"'
    ensures Split(Join(parts, sep), sep) == parts
  {
    var first := parts[0];
    if |parts| == 1 {
      SplitSolid(Outside, "", first, "", sep);
      assert first + "" == first && "" + first == first;
    } else {
      var rest := [sep] + Join(parts[1..], sep);
      SplitOfJoin(parts[1..], sep);
      SplitSolid(Outside, "", first, rest, sep);
      assert first + [sep] + Join(parts[1..], sep) == first + rest;
      assert "" + first == first;
      assert rest[1..] == Join(parts[1..], sep);
    }
  }

  /** Join undoes Split on every text. */
  lemma {:induction false} JoinOfSplit(q: Quote, cur: string, s: string, sep: char)
    ensures SplitQuoted(q, cur, s, sep) != [] && Join(SplitQuoted(q, cur, s, sep), sep) == cur + s
    decreases |s|
  {
    if s == "" {
      assert cur + s == cur;
    } else if Separates(q, s[0], sep) {
      JoinOfSplit(Outside, "", s[1..], sep);
      var rest := SplitQuoted(Outside, "", s[1..], sep);
      assert ([cur] + rest)[1..] == rest;
      assert cur + [sep] + ("" + s[1..]) == cur + s;
    } else {
      JoinOfSplit(Step(q, s[0]), cur + [s[0]], s[1..], sep);
      assert cur + [s[0]] + s[1..] == cur + s;
    }
  }

  /** A text that ends outside quotes can be split before a separator. */
  lemma {:induction false} SplitAtSeparator(q: Quote, cur: string, a: string, b: string, sep: char)
    requires End(q, a) == Outside && sep != '"'
    ensures SplitQuoted(q, cur, a + [sep] + b, sep) == SplitQuoted(q, cur, a, sep) + Split(b, sep)
    decreases |a|
  {
    var s := a + [sep] + b;
    if a == "" {
      assert s[0] == sep && s[1..] == b;
    } else {
      assert s[0] == a[0] && s[1..] == a[1..] + [sep] + b;
      if Separates(q, a[0], sep) {
        SplitAtSeparator(Outside, "", a[1..], b, sep);
        Assoc([cur], SplitQuoted(Outside, "", a[1..], sep), Split(b, sep));
      } else {
        SplitAtSeparator(Step(q, a[0]), cur + [a[0]], a[1..], b, sep);
      }
    }
  }

  lemma Assoc(a: seq<string>, b: seq<string>, c: seq<string>)
    ensures a + (b + c) == (a + b) + c
  {}

  lemma {:induction false} SplitPlainAtSeparator(cur: string, a: string, b: string, sep: char)
    ensures SplitPlain(cur, a + [sep] + b, sep) == SplitPlain(cur, a, sep) + SplitPlain("", b, sep)
    decreases |a|
  {
    var s := a + [sep] + b;
    if a == "" {
      assert s[0] == sep && s[1..] == b;
    } else {
      assert s[0] == a[0] && s[1..] == a[1..] + [sep] + b;
      if a[0] == sep {
        SplitPlainAtSeparator("", a[1..], b, sep);
        Assoc([cur], SplitPlain("", a[1..], sep), SplitPlain("", b, sep));
      } else {
        SplitPlainAtSeparator(cur + [a[0]], a[1..], b, sep);
      }
    }
  }

  /** The quote state at the end of a text is that at the end of its last part. */
  lemma {:induction false} EndOfLastPart(q: Quote, cur: string, s: string, sep: char)
    requires End(Outside, cur) == q
    ensures var parts := SplitQuoted(q, cur, s, sep);
            parts != [] && End(Outside, parts[|parts| - 1]) == End(q, s)
    decreases |s|
  {
    if s != "" {
      if Separates(q, s[0], sep) {
        EndOfLastPart(Outside, "", s[1..], sep);
      } else {
        EndAppend(Outside, cur, [s[0]]);
        assert End(q, [s[0]]) == Step(q, s[0]);
        EndOfLastPart(Step(q, s[0]), cur + [s[0]], s[1..], sep);
      }
    }
  }

  // ---- Trimming ----

  lemma {:induction false} EndOfTrimmed(s: string)
    requires End(Outside, Trim(s)) == Outside
    ensures End(Outside, s) == Outside
  {
    EndOfTrimmedRight(TrimLeft(s));
    EndOfTrimmedLeft(s);
  }

  lemma {:induction false} EndOfTrimmedRight(s: string)
    requires End(Outside, TrimRight(s)) == Outside
    ensures End(Outside, s) == Outside
  {
    if s != "" && IsSpace(s[|s| - 1]) {
      var n := |s| - 1;
      EndOfTrimmedRight(s[..n]);
      EndAppend(Outside, s[..n], [s[n]]);
      assert s[..n] + [s[n]] == s;
      assert End(Outside, [s[n]]) == Outside;
    }
  }

  lemma {:induction false} EndOfTrimmedLeft(s: string)
    ensures End(Outside, TrimLeft(s)) == End(Outside, s)
  {
    if s != "" && IsSpace(s[0]) {
      EndOfTrimmedLeft(s[1..]);
    }
  }

  lemma TrimKeeps(s: string)
    requires s != "" && !IsSpace(s[0]) && !IsSpace(s[|s| - 1])
    ensures Trim(s) == s
  {}

  /** The spaces of ASCII: 9 to 13, and 32. */
  lemma SpaceExactlyWhen(c: char)
    ensures IsSpace(c) <==> 9 <= c as int <= 13 || c as int == 32
  {}

  /** Trimming takes away exactly the spaces around a text that has none at its ends. */
  lemma TrimMeaning(before: string, s: string, after: string)
    requires forall i :: 0 <= i < |before| ==> IsSpace(before[i])
    requires forall i :: 0 <= i < |after| ==> IsSpace(after[i])
    requires s != "" ==> !IsSpace(s[0]) && !IsSpace(s[|s| - 1])
    ensures Trim(before + s + after) == s
  {
    assert before + s + after == before + (s + after);
    if s == "" {
      assert before + (s + after) == before + after + "";
      TrimLeftSpaces(before + after, "");
      assert TrimLeft("") == "";
    } else {
      TrimLeftSpaces(before, s + after);
      assert TrimLeft(s + after) == s + after;
      TrimRightSpaces(s, after);
      assert TrimRight(s) == s;
    }
  }

  lemma {:induction false} TrimLeftSpaces(spaces: string, s: string)
    requires forall i :: 0 <= i < |spaces| ==> IsSpace(spaces[i])
    ensures TrimLeft(spaces + s) == TrimLeft(s)
  {
    if spaces == "" {
      assert spaces + s == s;
    } else {
      TrimLeftSpaces(spaces[1..], s);
      assert (spaces + s)[1..] == spaces[1..] + s;
    }
  }

  lemma {:induction false} TrimRightSpaces(s: string, spaces: string)
    requires forall i :: 0 <= i < |spaces| ==> IsSpace(spaces[i])
    ensures TrimRight(s + spaces) == TrimRight(s)
  {
    var n := |spaces| - 1;
    if spaces == "" {
      assert s + spaces == s;
    } else {
      TrimRightSpaces(s, spaces[..n]);
      assert (s + spaces)[..|s| + n] == s + spaces[..n];
    }
  }

  /** A trimmed text has no space at either end. */
  lemma {:induction false} TrimLeftEnds(s: string)
    ensures TrimLeft(s) != "" ==> !IsSpace(TrimLeft(s)[0])
  {
    if s != "" && IsSpace(s[0]) {
      TrimLeftEnds(s[1..]);
    }
  }

  lemma {:induction false} TrimRightEnds(s: string)
    ensures TrimRight(s) != "" ==> !IsSpace(TrimRight(s)[|TrimRight(s)| - 1]) && TrimRight(s)[0] == s[0]
    ensures TrimRight(s) <= s
  {
    if s != "" && IsSpace(s[|s| - 1]) {
      TrimRightEnds(s[..|s| - 1]);
    }
  }

  lemma TrimTwice(s: string)
    ensures Trim(s) != "" ==> !IsSpace(Trim(s)[0]) && !IsSpace(Trim(s)[|Trim(s)| - 1])
    ensures Trim(Trim(s)) == Trim(s)
  {
    TrimLeftEnds(s);
    TrimRightEnds(TrimLeft(s));
    if Trim(s) != "" {
      TrimKeeps(Trim(s));
    }
  }

  /** The token characters are the visible ones without the delimiters (section 5.6.2 of RFC 9110). */
  lemma TcharExactlyWhen(c: char)
    ensures IsTchar(c) <==> 0x21 <= c as int <= 0x7e && c !in "\"(),/:;<=>?@[\\]{}"
  {}

  // ---- The plain splitter ----

  /** Join undoes the plain split on every text, and no part has a separator. */
  lemma {:induction false} JoinOfPlain(cur: string, s: string, sep: char)
    requires sep !in cur
    ensures var parts := SplitPlain(cur, s, sep);
            parts != [] && Join(parts, sep) == cur + s && forall i :: 0 <= i < |parts| ==> sep !in parts[i]
    decreases |s|
  {
    if s == "" {
      assert cur + s == cur;
    } else if s[0] == sep {
      JoinOfPlain("", s[1..], sep);
      var rest := SplitPlain("", s[1..], sep);
      assert ([cur] + rest)[1..] == rest;
      assert cur + [sep] + ("" + s[1..]) == cur + s;
    } else {
      JoinOfPlain(cur + [s[0]], s[1..], sep);
      assert cur + [s[0]] + s[1..] == cur + s;
    }
  }

  lemma {:induction false} PlainSolid(cur: string, a: string, sep: char)
    requires sep !in a
    ensures SplitPlain(cur, a, sep) == [cur + a]
    decreases |a|
  {
    if a == "" {
      assert cur + a == cur;
    } else {
      PlainSolid(cur + [a[0]], a[1..], sep);
      assert cur + [a[0]] + a[1..] == cur + a;
    }
  }

  /** The plain split undoes Join on parts without a separator. */
  lemma {:induction false} PlainOfJoin(parts: seq<string>, sep: char)
    requires parts != [] && forall i :: 0 <= i < |parts| ==> sep !in parts[i]
    ensures SplitPlain("", Join(parts, sep), sep) == parts
  {
    PlainSolid("", parts[0], sep);
    assert "" + parts[0] == parts[0];
    if |parts| > 1 {
      PlainOfJoin(parts[1..], sep);
      SplitPlainAtSeparator("", parts[0], Join(parts[1..], sep), sep);
    }
  }
}
