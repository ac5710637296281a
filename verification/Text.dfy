/** Byte strings: every char of a `string` in these modules stands for one byte. */
module Text {
  /** Some characters that are no part of any white space. */
  const SOLID := "=;#`>-*_123456789"

  predicate WordChar(c: char) {
    'a' <= c <= 'z' || 'A' <= c <= 'Z' || '0' <= c <= '9' || c == '_'
  }

  /** UTF-8 encodings of the Unicode white space characters. */
  predicate IsSpace(t: string) {
    match |t|
    case 1 => t[0] in " \t\n\r\U{0B}\U{0C}"
    case 2 => t[0] == '\U{C2}' && t[1] in "\U{85}\U{A0}"
    case 3 =>
      || t == "\U{E1}\U{9A}\U{80}"
      || (t[..2] == "\U{E2}\U{80}" && ('\U{80}' <= t[2] <= '\U{8A}' || t[2] in "\U{A8}\U{A9}\U{AF}"))
      || t == "\U{E2}\U{81}\U{9F}"
      || t == "\U{E3}\U{80}\U{80}"
    case _ => false
  }

  /** The length of the white space character `s` starts with, or 0. */
  function LeadingSpace(s: string): (n: nat)
    ensures n <= 3 && n <= |s| && (n > 0 ==> IsSpace(s[..n]))
  {
    if |s| >= 1 && IsSpace(s[..1]) then 1
    else if |s| >= 2 && IsSpace(s[..2]) then 2
    else if |s| >= 3 && IsSpace(s[..3]) then 3
    else 0
  }

  /** The length of the white space character `s` ends with, or 0. */
  function TrailingSpace(s: string): (n: nat)
    ensures n <= 3 && n <= |s| && (n > 0 ==> IsSpace(s[|s| - n..]))
  {
    if |s| >= 1 && IsSpace(s[|s| - 1..]) then 1
    else if |s| >= 2 && IsSpace(s[|s| - 2..]) then 2
    else if |s| >= 3 && IsSpace(s[|s| - 3..]) then 3
    else 0
  }

  function TrimLeft(s: string): string {
    var n := LeadingSpace(s);
    if n == 0 then s else TrimLeft(s[n..])
  }

  function TrimRight(s: string): string {
    var n := TrailingSpace(s);
    if n == 0 then s else TrimRight(s[..|s| - n])
  }

  function TrimSpace(s: string): string {
    TrimRight(TrimLeft(s))
  }

  /** A row of white space characters. */
  ghost predicate Spaces(s: string) {
    s == "" || exists n :: 1 <= n <= 3 && n <= |s| && IsSpace(s[..n]) && Spaces(s[n..])
  }

  lemma {:induction false} SpacesConcat(a: string, b: string)
    requires Spaces(a) && Spaces(b)
    ensures Spaces(a + b)
    decreases |a|
  {
    hide IsSpace;
    if a == "" {
      assert a + b == b;
    } else {
      var n :| 1 <= n <= 3 && n <= |a| && IsSpace(a[..n]) && Spaces(a[n..]);
      SpacesConcat(a[n..], b);
      assert (a + b)[..n] == a[..n] && (a + b)[n..] == a[n..] + b;
    }
  }

  lemma NoSpaces()
    ensures Spaces("")
  {}

  lemma OneSpace(s: string)
    requires 1 <= |s| <= 3 && IsSpace(s)
    ensures Spaces(s)
  {
    hide IsSpace;
    assert s[..|s|] == s && s[|s|..] == "" && Spaces("");
  }

  lemma {:induction false} TrimLeftIs(s: string) returns (p: string)
    ensures Spaces(p) && s == p + TrimLeft(s) && LeadingSpace(TrimLeft(s)) == 0
    decreases |s|
  {
    hide IsSpace, LeadingSpace, Spaces;
    var n := LeadingSpace(s);
    p := "";
    NoSpaces();
    if n > 0 {
      var more := TrimLeftIs(s[n..]);
      OneSpace(s[..n]);
      SpacesConcat(s[..n], more);
      p := s[..n] + more;
      assert s == s[..n] + s[n..];
    }
  }

  lemma {:induction false} TrimRightIs(s: string) returns (q: string)
    ensures Spaces(q) && s == TrimRight(s) + q && TrailingSpace(TrimRight(s)) == 0
    decreases |s|
  {
    hide IsSpace, TrailingSpace, Spaces;
    var n := TrailingSpace(s);
    q := "";
    NoSpaces();
    if n > 0 {
      var k := |s| - n;
      var more := TrimRightIs(s[..k]);
      OneSpace(s[k..]);
      SpacesConcat(more, s[k..]);
      q := more + s[k..];
      assert s == s[..k] + s[k..];
    }
  }

  lemma LeadingOfPrefix(s: string, t: string)
    requires t <= s && LeadingSpace(s) == 0
    ensures LeadingSpace(t) == 0
  {
    hide IsSpace;
    assert forall n :: 0 <= n <= |t| ==> t[..n] == s[..n];
  }

  /** Trimming takes white space from both ends and leaves none there. */
  lemma TrimSpaceIs(s: string) returns (p: string, q: string)
    ensures Spaces(p) && Spaces(q) && s == p + TrimSpace(s) + q
    ensures LeadingSpace(TrimSpace(s)) == 0 && TrailingSpace(TrimSpace(s)) == 0
  {
    hide LeadingSpace, TrailingSpace, TrimLeft, TrimRight, Spaces;
    p := TrimLeftIs(s);
    q := TrimRightIs(TrimLeft(s));
    assert TrimSpace(s) <= TrimLeft(s);
    LeadingOfPrefix(TrimLeft(s), TrimSpace(s));
    Associates(p, TrimSpace(s), q);
  }

  /** The first position of `c`, or |s|. */
  function IndexOf(s: string, c: char): (i: nat)
    ensures i <= |s| && (i < |s| ==> s[i] == c)
    ensures forall j :: 0 <= j < i ==> s[j] != c
  {
    if s == "" || s[0] == c then 0 else 1 + IndexOf(s[1..], c)
  }

  /** The pieces of `s` between the occurrences of `sep`. */
  function Split(s: string, sep: char): (r: seq<string>)
    ensures |r| >= 1
  {
    var i := IndexOf(s, sep);
    if i == |s| then [s] else [s[..i]] + Split(s[i + 1..], sep)
  }

  function Join(parts: seq<string>, sep: char): string {
    if parts == [] then ""
    else if |parts| == 1 then parts[0]
    else parts[0] + [sep] + Join(parts[1..], sep)
  }

  lemma {:induction false} SplitJoin(parts: seq<string>, sep: char)
    requires parts != [] && forall i :: 0 <= i < |parts| ==> sep !in parts[i]
    ensures Split(Join(parts, sep), sep) == parts
  {
    var s := Join(parts, sep);
    if |parts| == 1 {
      assert IndexOf(s, sep) == |s|;
    } else {
      IndexAfter(parts[0], sep, Join(parts[1..], sep));
      assert s == parts[0] + [sep] + Join(parts[1..], sep);
      assert s[|parts[0]| + 1..] == Join(parts[1..], sep) && s[..|parts[0]|] == parts[0];
      assert parts == [parts[0]] + parts[1..];
      SplitJoin(parts[1..], sep);
    }
  }

  /** The pieces hold no separator, and with separators between them they are the text again. */
  lemma {:induction false} JoinSplit(s: string, sep: char)
    ensures Join(Split(s, sep), sep) == s
    ensures forall i :: 0 <= i < |Split(s, sep)| ==> sep !in Split(s, sep)[i]
    decreases |s|
  {
    hide IndexOf;
    var i := IndexOf(s, sep);
    if i < |s| {
      JoinSplit(s[i + 1..], sep);
      assert Split(s, sep)[1..] == Split(s[i + 1..], sep);
      assert s == s[..i] + [sep] + s[i + 1..];
    }
  }

  /** The first separator is found right behind a prefix without one. */
  lemma IndexAfter(p: string, c: char, rest: string)
    requires c !in p
    ensures IndexOf(p + [c] + rest, c) == |p|
  {
    var s := p + [c] + rest;
    assert s[|p|] == c;
    assert forall j :: 0 <= j < |p| ==> s[j] == p[j] && p[j] in p;
  }

  lemma SpaceHasNo(t: string, c: char)
    requires IsSpace(t) && c in SOLID
    ensures c !in t
  {
    hide IsSpace;
    forall i | 0 <= i < |t| ensures t[i] != c { SpaceByte(t, i); }
  }

  /** No white space holds an ASCII character but the six of one byte. */
  lemma SpaceByte(t: string, i: nat)
    requires IsSpace(t) && i < |t|
    ensures t[i] in " \t\n\r\U{0B}\U{0C}" || t[i] as int >= 128
  {
    assert |t| == 3 ==> t[..2] == [t[0], t[1]] && t == [t[0], t[1], t[2]];
  }

  /** A string that neither starts nor ends with white space is its own trimming. */
  lemma TrimNothing(s: string)
    requires LeadingSpace(s) == 0 && TrailingSpace(s) == 0
    ensures TrimSpace(s) == s
  {}

  lemma TrailingKeeps(s: string, c: char)
    requires s != "" && s[0] == c && c in SOLID
    ensures TrailingSpace(s) < |s|
  {
    hide IsSpace;
    assert s[0..] == s;
    if IsSpace(s) { SpaceHasNo(s, c); }
  }

  lemma LeadingKeeps(s: string, c: char)
    requires s != "" && s[0] == c && c in SOLID
    ensures LeadingSpace(s) == 0
  {
    hide IsSpace;
    var n := LeadingSpace(s);
    if n > 0 {
      assert s[..n][0] == c;
      SpaceHasNo(s[..n], c);
    }
  }

  lemma {:induction false} TrimRightKeeps(s: string, c: char)
    requires s != "" && s[0] == c && c in SOLID
    ensures TrimRight(s) != ""
    decreases |s|
  {
    hide TrailingSpace;
    TrailingKeeps(s, c);
    if TrailingSpace(s) > 0 { TrimRightKeeps(s[..|s| - TrailingSpace(s)], c); }
  }

  /** Trimming leaves something of a string that starts with an ordinary character. */
  lemma TrimKeeps(s: string, c: char)
    requires s != "" && s[0] == c && c in SOLID
    ensures TrimSpace(s) != ""
  {
    hide TrimRight, LeadingSpace;
    LeadingKeeps(s, c);
    TrimRightKeeps(s, c);
  }

  lemma WordIsNoSpace(s: string)
    requires s != "" && WordChar(s[0])
    ensures LeadingSpace(s) == 0
  {
    assert forall n :: 1 <= n <= |s| ==> s[..n][0] == s[0];
    if |s| >= 3 { assert s[..3][..2] == s[..2] && s[..2] == [s[0], s[1]]; }
  }

  lemma Associates<T>(a: seq<T>, b: seq<T>, c: seq<T>)
    ensures a + b + c == a + (b + c)
  {}
}
