/** Standard padded base64 (section 4 of RFC 4648) over byte strings. */
module Base64 {
  import opened Wrappers

  const PAD := '='

  predicate IsBytes(s: string) {
    forall i :: 0 <= i < |s| ==> s[i] as int < 256
  }

  /** The letter for a 6-bit value. */
  function Letter(d: nat): (c: char)
    requires d < 64
    ensures Digit(c) == Some(d) && c != PAD && c as int < 128
  {
    if d < 26 then (d + 'A' as int) as char
    else if d < 52 then (d - 26 + 'a' as int) as char
    else if d < 62 then (d - 52 + '0' as int) as char
    else if d == 62 then '+'
    else '/'
  }

  function Digit(c: char): (r: Option<nat>)
    ensures r.Some? ==> r.value < 64
  {
    if 'A' <= c <= 'Z' then Some(c as int - 'A' as int)
    else if 'a' <= c <= 'z' then Some(c as int - 'a' as int + 26)
    else if '0' <= c <= '9' then Some(c as int - '0' as int + 52)
    else if c == '+' then Some(62)
    else if c == '/' then Some(63)
    else None
  }

  /** Four letters for three bytes. */
  function Quad(a: nat, b: nat, c: nat): (r: string)
    requires a < 256 && b < 256 && c < 256
    ensures |r| == 4
  {
    [Letter(a / 4), Letter(a % 4 * 16 + b / 16), Letter(b % 16 * 4 + c / 64), Letter(c % 64)]
  }

  function Encode(s: string): string
    requires IsBytes(s)
  {
    if |s| == 0 then ""
    else if |s| == 1 then Quad(s[0] as int, 0, 0)[..2] + [PAD, PAD]
    else if |s| == 2 then Quad(s[0] as int, s[1] as int, 0)[..3] + [PAD]
    else Quad(s[0] as int, s[1] as int, s[2] as int) + Encode(s[3..])
  }

  /** Carriage returns and newlines inside the text are skipped. */
  function Unwrap(t: string): string {
    if t == "" then "" else (if t[0] == '\r' || t[0] == '\n' then "" else [t[0]]) + Unwrap(t[1..])
  }

  /** The three bytes of four digits. */
  function Bytes3(w: nat, x: nat, y: nat, z: nat): (r: string)
    requires w < 64 && x < 64 && y < 64 && z < 64
    ensures |r| == 3 && IsBytes(r)
  {
    [(w * 4 + x / 16) as char, (x % 16 * 16 + y / 4) as char, (y % 4 * 64 + z) as char]
  }

  /** Groups of four letters; only the last may be padded, and leftover bits under the padding are ignored. */
  function DecodeGroups(t: string): (r: Option<string>)
    ensures r.Some? ==> IsBytes(r.value)
  {
    if t == "" then Some("")
    else if |t| < 4 || Digit(t[0]).None? || Digit(t[1]).None? then None
    else
      var w, x := Digit(t[0]).value, Digit(t[1]).value;
      if t[2] == PAD then (if t[3] == PAD && |t| == 4 then Some(Bytes3(w, x, 0, 0)[..1]) else None)
      else if Digit(t[2]).None? then None
      else
        var y := Digit(t[2]).value;
        if t[3] == PAD then (if |t| == 4 then Some(Bytes3(w, x, y, 0)[..2]) else None)
        else if Digit(t[3]).None? then None
        else
          var rest := DecodeGroups(t[4..]);
          if rest.None? then None else Some(Bytes3(w, x, y, Digit(t[3]).value) + rest.value)
  }

  function Decode(t: string): (r: Option<string>)
    ensures r.Some? ==> IsBytes(r.value)
  {
    DecodeGroups(Unwrap(t))
  }

  predicate IsText(t: string) {
    forall i :: 0 <= i < |t| ==> t[i] == PAD || Digit(t[i]).Some?
  }

  lemma {:induction false} EncodeIsText(s: string)
    requires IsBytes(s)
    ensures IsText(Encode(s)) && '\n' !in Encode(s) && '\r' !in Encode(s)
  {
    if |s| > 2 {
      EncodeIsText(s[3..]);
    }
    assert IsText(Encode(s));
    assert Digit('\n').None? && Digit('\r').None?;
  }

  lemma {:induction false} UnwrapText(t: string)
    requires '\n' !in t && '\r' !in t
    ensures Unwrap(t) == t
  {
    if t != "" { UnwrapText(t[1..]); }
  }

  lemma Split6(a: nat, b: nat, c: nat)
    requires a < 256 && b < 256 && c < 256
    ensures a / 4 < 64 && a % 4 * 16 + b / 16 < 64 && b % 16 * 4 + c / 64 < 64 && c % 64 < 64
    ensures a / 4 * 4 + (a % 4 * 16 + b / 16) / 16 == a
    ensures (a % 4 * 16 + b / 16) % 16 * 16 + (b % 16 * 4 + c / 64) / 4 == b
    ensures (b % 16 * 4 + c / 64) % 4 * 64 + c % 64 == c
  {
    var p, q := b / 16, c / 64;
    assert (a % 4 * 16 + p) / 16 == a % 4 && (a % 4 * 16 + p) % 16 == p;
    assert (b % 16 * 4 + q) / 4 == b % 16 && (b % 16 * 4 + q) % 4 == q;
  }

  lemma ThreeBack(a: nat, b: nat, c: nat)
    requires a < 256 && b < 256 && c < 256
    ensures a / 4 < 64 && a % 4 * 16 + b / 16 < 64 && b % 16 * 4 + c / 64 < 64 && c % 64 < 64
    ensures Bytes3(a / 4, a % 4 * 16 + b / 16, b % 16 * 4 + c / 64, c % 64) == [a as char, b as char, c as char]
  {
    Split6(a, b, c);
  }

  lemma QuadDigits(a: nat, b: nat, c: nat)
    requires a < 256 && b < 256 && c < 256
    ensures var q := Quad(a, b, c);
            && Digit(q[0]) == Some(a / 4) && Digit(q[1]) == Some(a % 4 * 16 + b / 16)
            && Digit(q[2]) == Some(b % 16 * 4 + c / 64) && Digit(q[3]) == Some(c % 64)
            && PAD !in q
  {}

  lemma GroupOfOne(s: string)
    requires IsBytes(s) && |s| == 1
    ensures DecodeGroups(Encode(s)) == Some(s)
  {
    hide Digit, Quad, Bytes3, Letter;
    var a := s[0] as int;
    QuadDigits(a, 0, 0);
    ThreeBack(a, 0, 0);
    assert Bytes3(a / 4, a % 4 * 16, 0, 0)[..1] == s;
  }

  lemma GroupOfTwo(s: string)
    requires IsBytes(s) && |s| == 2
    ensures DecodeGroups(Encode(s)) == Some(s)
  {
    hide Digit, Quad, Bytes3, Letter;
    var a, b := s[0] as int, s[1] as int;
    QuadDigits(a, b, 0);
    ThreeBack(a, b, 0);
    assert Bytes3(a / 4, a % 4 * 16 + b / 16, b % 16 * 4, 0)[..2] == s;
  }

  lemma {:induction false} GroupsBack(s: string)
    requires IsBytes(s)
    ensures DecodeGroups(Encode(s)) == Some(s)
  {
    hide Digit, Quad, Bytes3, Letter;
    if |s| == 1 {
      GroupOfOne(s);
    } else if |s| == 2 {
      GroupOfTwo(s);
    } else if |s| > 2 {
      var a, b, c := s[0] as int, s[1] as int, s[2] as int;
      QuadDigits(a, b, c);
      ThreeBack(a, b, c);
      assert Encode(s)[4..] == Encode(s[3..]);
      GroupsBack(s[3..]);
      assert s == [s[0], s[1], s[2]] + s[3..];
    }
  }

  /** Decoding undoes encoding for every byte string. */
  lemma RoundTrip(s: string)
    requires IsBytes(s)
    ensures Decode(Encode(s)) == Some(s)
  {
    EncodeIsText(s);
    UnwrapText(Encode(s));
    GroupsBack(s);
  }

  // ------------------------------------------------------------------ what the groups are

  /** The letter's place in the alphabet; padding counts as nothing. */
  function Value(c: char): (d: nat)
    ensures d < 64
  {
    Digit(c).GetOr(0)
  }

  /** Four letters, read as a number of base 64. */
  function LettersNumber(t: string): nat
    requires |t| == 4
  {
    ((Value(t[0]) * 64 + Value(t[1])) * 64 + Value(t[2])) * 64 + Value(t[3])
  }

  /** Three bytes, read as a number of base 256. */
  function BytesNumber(s: string): nat
    requires |s| == 3
  {
    (s[0] as int * 256 + s[1] as int) * 256 + s[2] as int
  }

  /** The bytes from `i` on, filled up with zeros. */
  function Three(s: string, i: nat): (r: string)
    requires i < |s|
    ensures |r| == 3
  {
    [s[i], if i + 1 < |s| then s[i + 1] else 0 as char, if i + 2 < |s| then s[i + 2] else 0 as char]
  }

  lemma QuadIsNumber(a: nat, b: nat, c: nat)
    requires a < 256 && b < 256 && c < 256
    ensures LettersNumber(Quad(a, b, c)) == (a * 256 + b) * 256 + c
  {
    hide Quad, Digit;
    QuadDigits(a, b, c);
    Split6(a, b, c);
    assert a == a / 4 * 4 + a % 4 && b == b / 16 * 16 + b % 16 && c == c / 64 * 64 + c % 64;
  }

  /** Four letters stand for the bytes from `i` on: as numbers they are the same, and each missing byte is one letter of
      padding. */
  ghost predicate IsGroup(q: string, s: string, i: nat)
    requires i < |s|
  {
    && |q| == 4 && LettersNumber(q) == BytesNumber(Three(s, i))
    && forall k :: 0 <= k < 4 ==> (q[k] == PAD <==> i + k > |s|)
  }

  lemma OnePaddedTwice(s: string)
    requires IsBytes(s) && |s| == 1
    ensures IsGroup(Encode(s), s, 0)
  {
    hide Digit, Quad, Letter, LettersNumber;
    var q := Quad(s[0] as int, 0, 0);
    QuadIsNumber(s[0] as int, 0, 0);
    QuadDigits(s[0] as int, 0, 0);
    assert Encode(s) == [q[0], q[1], PAD, PAD];
    PaddingIsZero(q, Encode(s));
  }

  lemma TwoPaddedOnce(s: string)
    requires IsBytes(s) && |s| == 2
    ensures IsGroup(Encode(s), s, 0)
  {
    hide Digit, Quad, Letter, LettersNumber;
    var q := Quad(s[0] as int, s[1] as int, 0);
    QuadIsNumber(s[0] as int, s[1] as int, 0);
    QuadDigits(s[0] as int, s[1] as int, 0);
    assert Encode(s) == [q[0], q[1], q[2], PAD];
    PaddingIsZero(q, Encode(s));
  }

  lemma PaddingIsZero(q: string, t: string)
    requires |q| == |t| == 4
    requires forall k :: 0 <= k < 4 ==> t[k] == q[k] || (Digit(q[k]) == Some(0) && t[k] == PAD)
    ensures LettersNumber(t) == LettersNumber(q)
  {
    hide Digit;
    PadIsNoDigit();
    assert forall k :: 0 <= k < 4 ==> Value(t[k]) == Value(q[k]);
  }

  lemma PadIsNoDigit()
    ensures Digit(PAD).None?
  {}

  lemma WholeQuad(s: string)
    requires IsBytes(s) && |s| >= 3
    ensures |Encode(s)| >= 4 && IsGroup(Encode(s)[..4], s, 0) && Encode(s)[4..] == Encode(s[3..])
  {
    hide Digit, Quad, Letter;
    QuadIsNumber(s[0] as int, s[1] as int, s[2] as int);
    QuadDigits(s[0] as int, s[1] as int, s[2] as int);
    assert Encode(s)[..4] == Quad(s[0] as int, s[1] as int, s[2] as int);
  }

  /** Every three bytes become the four letters of the same number. */
  lemma {:induction false} EncodeIs(s: string, g: nat)
    requires IsBytes(s) && 3 * g < |s|
    ensures 4 * g + 4 <= |Encode(s)| && IsGroup(Encode(s)[4 * g..4 * g + 4], s, 3 * g)
    decreases g
  {
    hide Encode, LettersNumber, BytesNumber;
    if |s| < 3 {
      if |s| == 1 { OnePaddedTwice(s); } else { TwoPaddedOnce(s); }
      assert Encode(s)[..4] == Encode(s);
    } else {
      WholeQuad(s);
      if g > 0 {
        EncodeIs(s[3..], g - 1);
        assert Encode(s)[4 * g..4 * g + 4] == Encode(s[3..])[4 * (g - 1)..4 * (g - 1) + 4];
        assert Three(s, 3 * g) == Three(s[3..], 3 * (g - 1));
      }
    }
  }

  lemma {:induction false} EncodedLength(s: string)
    requires IsBytes(s)
    ensures |Encode(s)| == 4 * ((|s| + 2) / 3)
  {
    hide Quad, Letter;
    if |s| >= 3 {
      EncodedLength(s[3..]);
      assert (|s| + 2) / 3 == 1 + (|s[3..]| + 2) / 3;
    }
  }

  // ------------------------------------------------------------------ what is decoded

  /** Letters of the alphabet, `pads` letters of padding behind them. */
  ghost predicate PaddedBy(t: string, pads: nat) {
    && pads <= |t| && (forall k :: |t| - pads <= k < |t| ==> t[k] == PAD)
    && forall k :: 0 <= k < |t| - pads ==> Digit(t[k]).Some?
  }

  ghost predicate WellFormed(t: string) {
    |t| % 4 == 0 && exists pads :: 0 <= pads <= 2 && PaddedBy(t, pads)
  }

  lemma WellFormedTail(t: string)
    requires |t| > 4
    ensures WellFormed(t) <==> WellFormed(t[4..]) && forall k :: 0 <= k < 4 ==> Digit(t[k]).Some?
  {
    hide Digit;
    var rest := t[4..];
    assert forall k :: 0 <= k < |rest| ==> rest[k] == t[k + 4];
    if WellFormed(t) {
      var pads :| 0 <= pads <= 2 && PaddedBy(t, pads);
      assert PaddedBy(rest, pads);
    }
    if WellFormed(rest) && forall k :: 0 <= k < 4 ==> Digit(t[k]).Some? {
      var pads :| 0 <= pads <= 2 && PaddedBy(rest, pads);
      assert forall k :: 4 <= k < |t| ==> t[k] == rest[k - 4];
      assert PaddedBy(t, pads);
    }
  }

  lemma LastGroup(t: string)
    requires |t| == 4
    ensures WellFormed(t) <==> DecodeGroups(t).Some?
  {
    hide Digit, Bytes3;
    PadIsNoDigit();
    assert DecodeGroups(t[4..]) == Some("");
    if WellFormed(t) { var pads :| 0 <= pads <= 2 && PaddedBy(t, pads); }
    if DecodeGroups(t).Some? {
      var pads := if t[2] == PAD then 2 else if t[3] == PAD then 1 else 0;
      assert PaddedBy(t, pads);
    }
  }

  lemma {:induction false} GroupsIff(t: string)
    ensures DecodeGroups(t).Some? <==> WellFormed(t)
    decreases |t|
  {
    hide Digit, Bytes3;
    if |t| > 4 {
      PadIsNoDigit();
      WellFormedTail(t);
      GroupsIff(t[4..]);
    } else if |t| == 4 {
      LastGroup(t);
    } else if t == "" {
      assert PaddedBy(t, 0);
    }
  }

  /** A text is decoded exactly when, line breaks left out, it is whole groups of letters with at most two letters of
      padding at the end. */
  lemma DecodesIff(t: string)
    ensures Decode(t).Some? <==> WellFormed(Unwrap(t))
  {
    GroupsIff(Unwrap(t));
  }
}
