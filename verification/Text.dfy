/** ASCII text helpers shared by the DNS engine and the header parsers, after Go's strings package. */
module Text {

  datatype Option<+T> = None | Some(value: T)

  /** Each value of s once, in the order in which the values are first seen. */
  function FirstSeen<T(==)>(s: seq<T>): (r: seq<T>)
    ensures |r| <= |s|
  {
    if s == [] then []
    else
      var r := FirstSeen(s[..|s| - 1]);
      var x := s[|s| - 1];
      if x in r then r else r + [x]
  }

  lemma {:induction false} FirstSeenIn<T>(s: seq<T>, x: T)
    ensures x in s <==> x in FirstSeen(s)
  {
    if s != [] {
      FirstSeenIn(s[..|s| - 1], x);
      assert s == s[..|s| - 1] + [s[|s| - 1]];
    }
  }

  lemma {:induction false} FirstSeenDistinct<T>(s: seq<T>)
    ensures forall i, j :: 0 <= i < j < |FirstSeen(s)| ==> FirstSeen(s)[i] != FirstSeen(s)[j]
  {
    if s != [] {
      FirstSeenDistinct(s[..|s| - 1]);
    }
  }

  /** The value x occurs in s before the value y does. */
  ghost predicate SeenBefore<T>(s: seq<T>, x: T, y: T) {
    exists a: nat :: a < |s| && s[a] == x && y !in s[..a + 1]
  }

  lemma {:induction false} FirstSeenOrder<T>(s: seq<T>, i: nat, j: nat)
    requires i < j < |FirstSeen(s)|
    ensures SeenBefore(s, FirstSeen(s)[i], FirstSeen(s)[j])
  {
    var n, r := |s| - 1, FirstSeen(s);
    var front := s[..n];
    if j < |FirstSeen(front)| {
      FirstSeenOrder(front, i, j);
      var a: nat :| a < n && front[a] == r[i] && r[j] !in front[..a + 1];
      assert s[..a + 1] == front[..a + 1];
    } else {
      FirstSeenIn(front, r[i]);
      FirstSeenIn(front, r[j]);
      var a: nat :| a < n && front[a] == r[i];
      assert s[..a + 1] == front[..a + 1];
    }
  }

  /** The loop of uniqueStrings: a seen set and an output list. */
  method UniqueStrings<T(==)>(values: seq<T>) returns (out: seq<T>)
    ensures out == FirstSeen(values)
  {
    var seen: set<T> := {};
    out := [];
    for i := 0 to |values|
      invariant out == FirstSeen(values[..i])
      invariant seen == set x | x in out
    {
      assert values[..i + 1][..i] == values[..i];
      if values[i] !in seen {
        seen := seen + {values[i]};
        out := out + [values[i]];
      }
    }
    assert values[..|values|] == values;
  }

  function LowerChar(c: char): (r: char)
  {
    if 'A' <= c <= 'Z' then (c as int + 32) as char else c
  }

  function Lower(s: string): (r: string)
    ensures |r| == |s| && forall i :: 0 <= i < |s| ==> r[i] == LowerChar(s[i])
  {
    seq(|s|, i requires 0 <= i < |s| => LowerChar(s[i]))
  }

  predicate EqualFold(a: string, b: string) {
    Lower(a) == Lower(b)
  }

  /** Two characters are the same letter, or the same character. */
  predicate SameLetter(a: char, b: char) {
    || a == b
    || ('A' <= a <= 'Z' && b as int == a as int + 32) || ('A' <= b <= 'Z' && a as int == b as int + 32)
  }

  /** Texts fold to each other exactly when they differ in the case of letters alone. */
  lemma EqualFoldExactlyWhen(a: string, b: string)
    ensures EqualFold(a, b) <==> |a| == |b| && forall i :: 0 <= i < |a| ==> SameLetter(a[i], b[i])
  {
    assert forall c, d :: LowerChar(c) == LowerChar(d) <==> SameLetter(c, d);
    hide LowerChar, SameLetter;
    if |a| == |b| && forall i :: 0 <= i < |a| ==> SameLetter(a[i], b[i]) {
      assert forall i :: 0 <= i < |a| ==> Lower(a)[i] == Lower(b)[i];
    }
    if EqualFold(a, b) {
      forall i | 0 <= i < |a| ensures SameLetter(a[i], b[i]) {
        assert Lower(a)[i] == Lower(b)[i];
      }
    }
  }

  /** strings.TrimSuffix(s, ".") */
  function TrimDot(s: string): string {
    if s != "" && s[|s| - 1] == '.' then s[..|s| - 1] else s
  }

  /** fqdn: a single trailing dot is added when there is none. */
  function Fqdn(s: string): string {
    if s != "" && s[|s| - 1] == '.' then s else s + "."
  }

  /** The fully qualified form ends in a dot: it is the text itself if that does, and else the text with a dot. */
  lemma FqdnMeaning(s: string)
    ensures Fqdn(s)[|Fqdn(s)| - 1] == '.'
    ensures Fqdn(s) == s || (Fqdn(s) == s + "." && (s == "" || s[|s| - 1] != '.'))
  {}
}
