/**
 * PHP's `base64_encode` and the non-strict `base64_decode` of PHP 5: the
 * decoder reads up to the first NUL, skips every other character outside the
 * alphabet, fails (returns `false`) on a `=` that follows a lone digit of a
 * group, turns each group of four digits into three bytes, a trailing group
 * of two or three digits into one or two bytes, and drops a lone trailing
 * digit.
 */
module Base64 {
  import opened Wrappers

  /** Every character of `s` stands for a byte. */
  predicate IsBytes(s: string) {
    forall i :: 0 <= i < |s| ==> s[i] as int < 256
  }

  /** The byte value of a character. */
  function ByteOf(c: char): (b: nat)
    ensures b < 256
    ensures c as int < 256 ==> b == c as int
  {
    (c as int) % 256
  }

  /** The character standing for byte `b`. */
  function Chr(b: nat): (c: char)
    ensures b < 256 ==> c as int == b
  {
    (b % 256) as char
  }

  /** The digit for a sextet, from the alphabet `A-Z a-z 0-9 + /` of section 4 of RFC 4648. */
  function Digit(v: nat): char {
    if v < 26 then ('A' as int + v) as char
    else if v < 52 then ('a' as int + v - 26) as char
    else if v < 62 then ('0' as int + v - 52) as char
    else if v == 62 then '+'
    else '/'
  }

  /** The sextet a digit stands for; `None` for padding and any other character. */
  function DigitValue(c: char): (r: Option<nat>)
    ensures r.Some? ==> r.value < 64
  {
    if 'A' <= c <= 'Z' then Some(c as int - 'A' as int)
    else if 'a' <= c <= 'z' then Some(c as int - 'a' as int + 26)
    else if '0' <= c <= '9' then Some(c as int - '0' as int + 52)
    else if c == '+' then Some(62)
    else if c == '/' then Some(63)
    else None
  }

  /** Reading a digit back gives its sextet. */
  lemma DigitRoundTrip(v: nat)
    requires v < 64
    ensures DigitValue(Digit(v)) == Some(v)
  {
  }


  /** The 6-bit groups of the bytes of `s`, most significant first; a short last group is zero-filled. */
  function GroupSextets(s: string): seq<nat>
    decreases |s|
  {
    if |s| == 0 then []
    else if |s| == 1 then
      var b0 := ByteOf(s[0]);
      [b0 / 4, b0 % 4 * 16]
    else if |s| == 2 then
      var b0, b1 := ByteOf(s[0]), ByteOf(s[1]);
      [b0 / 4, b0 % 4 * 16 + b1 / 16, b1 % 16 * 4]
    else
      var b0, b1, b2 := ByteOf(s[0]), ByteOf(s[1]), ByteOf(s[2]);
      [b0 / 4, b0 % 4 * 16 + b1 / 16, b1 % 16 * 4 + b2 / 64, b2 % 64] + GroupSextets(s[3..])
  }

  /** Three bytes make four sextets; a short last group of one or two bytes makes two or three. */
  lemma {:induction false} GroupLength(s: string)
    ensures |GroupSextets(s)| == |s| / 3 * 4 + (if |s| % 3 == 0 then 0 else |s| % 3 + 1)
    decreases |s|
  {
    if |s| >= 3 {
      GroupLength(s[3..]);
    }
  }

  /** Every group value is a sextet. */
  lemma {:induction false} GroupSextetsBound(s: string)
    ensures forall i :: 0 <= i < |GroupSextets(s)| ==> GroupSextets(s)[i] < 64
    decreases |s|
  {
    if |s| >= 3 {
      GroupSextetsBound(s[3..]);
    }
  }

  /** The digits for a sequence of sextets. */
  function Digits(q: seq<nat>): (r: string)
    ensures |r| == |q|
  {
    if q == [] then "" else [Digit(q[0])] + Digits(q[1..])
  }

  /** `base64_encode($s)`: the digits of the sextets, padded with `=` to a multiple of four. */
  function Encode(s: string): (r: string)
    ensures |r| == (|s| + 2) / 3 * 4
  {
    GroupLength(s);
    Digits(GroupSextets(s)) + (if |s| % 3 == 1 then "==" else if |s| % 3 == 2 then "=" else "")
  }

  /** The sextets of the digits of `s`, in order; every other character is skipped. */
  function Sextets(s: string): (q: seq<nat>)
    ensures |q| <= |s|
    ensures forall i :: 0 <= i < |q| ==> q[i] < 64
  {
    if s == [] then []
    else match DigitValue(s[0])
      case Some(v) => [v] + Sextets(s[1..])
      case None => Sextets(s[1..])
  }

  lemma {:induction false} SextetsAppend(a: string, b: string)
    ensures Sextets(a + b) == Sextets(a) + Sextets(b)
  {
    if a == [] {
      assert a + b == b;
    } else {
      assert (a + b)[1..] == a[1..] + b;
      SextetsAppend(a[1..], b);
    }
  }

  lemma {:induction false} SextetsOfDigits(q: seq<nat>)
    requires forall i :: 0 <= i < |q| ==> q[i] < 64
    ensures Sextets(Digits(q)) == q
  {
    if q != [] {
      DigitRoundTrip(q[0]);
      SextetsOfDigits(q[1..]);
      assert [q[0]] + q[1..] == q;
    }
  }

  /** Decodes sextets four at a time into bytes. */
  function DecodeSextets(q: seq<nat>): (r: string)
    ensures |r| == |q| * 3 / 4
  {
    if |q| < 2 then ""
    else if |q| == 2 then [Chr(q[0] * 4 + q[1] / 16)]
    else if |q| == 3 then [Chr(q[0] * 4 + q[1] / 16), Chr(q[1] % 16 * 16 + q[2] / 4)]
    else
      [Chr(q[0] * 4 + q[1] / 16), Chr(q[1] % 16 * 16 + q[2] / 4), Chr(q[2] % 4 * 64 + q[3])]
        + DecodeSextets(q[4..])
  }

  /** The part of `s` before its first NUL, where PHP 5's decoding loop stops. */
  function BeforeNul(s: string): (t: string)
    ensures |t| <= |s| && t == s[..|t|]
    ensures '\0' !in t
    ensures |t| < |s| ==> s[|t|] == '\0'
  {
    if s == [] || s[0] == '\0' then "" else [s[0]] + BeforeNul(s[1..])
  }

  /**
   * Whether PHP 5's decoder gives up on `t`, having read `i` digits before
   * it: some `=` arrives while the digits read leave one digit in the current
   * group. (The decoder looks one character ahead and lets a `=` followed by
   * `=` pass, but the last `=` of the run is followed by something else or by
   * the end, and fails there.)
   */
  function StrayPad(t: string, i: nat): bool
  {
    if t == [] then false
    else if t[0] == '=' && i % 4 == 1 then true
    else StrayPad(t[1..], if DigitValue(t[0]).Some? then i + 1 else i)
  }

  /** `base64_decode($s)` (non-strict, PHP 5); `None` is `false`. */
  function Decode(s: string): (r: Option<string>)
    ensures r.Some? ==> |r.value| == |Sextets(BeforeNul(s))| * 3 / 4 && |r.value| <= |s|
  {
    var t := BeforeNul(s);
    if StrayPad(t, 0) then None else Some(DecodeSextets(Sextets(t)))
  }

  /** A NUL ends the input: what follows it is never read. */
  lemma {:induction false} NulEndsInput(s: string, rest: string)
    requires '\0' !in s
    ensures Decode(s + "\0" + rest) == Decode(s)
  {
    NoNulKept(s);
    NulCuts(s, rest);
  }

  /** Without a NUL the whole string is read. */
  lemma {:induction false} NoNulKept(s: string)
    requires '\0' !in s
    ensures BeforeNul(s) == s
  {
    if s != [] {
      NoNulKept(s[1..]);
    }
  }

  lemma {:induction false} NulCuts(s: string, rest: string)
    requires '\0' !in s
    ensures BeforeNul(s + "\0" + rest) == s
  {
    if s != [] {
      assert (s + "\0" + rest)[1..] == s[1..] + "\0" + rest;
      NulCuts(s[1..], rest);
    }
  }

  /** Padding after a single digit of a group makes `base64_decode` return `false`. */
  lemma {:induction false} LonePadFails(prefix: string, d: char, rest: string)
    requires '\0' !in prefix && '\0' !in rest && d != '\0'
    requires |Sextets(prefix)| % 4 == 0 && !StrayPad(prefix, 0)
    requires DigitValue(d).Some?
    ensures Decode(prefix + [d, '='] + rest) == None
  {
    var tail := [d, '='] + rest;
    var s := prefix + tail;
    assert s == prefix + [d, '='] + rest;
    assert '\0' !in tail;
    assert '\0' !in s;
    NoNulKept(s);
    StrayPadSplit(prefix, tail, 0);
    PadAfterOneDigit(d, rest, |Sextets(prefix)|);
  }

  /** A digit that starts a group followed by `=` fails the decoding. */
  lemma PadAfterOneDigit(d: char, rest: string, n: nat)
    requires n % 4 == 0 && DigitValue(d).Some?
    ensures StrayPad([d, '='] + rest, n)
  {
    var t := [d, '='] + rest;
    assert t[0] == d && t[0] != '=';
    assert t[1..] == ['='] + rest;
    assert StrayPad(t, n) == StrayPad(t[1..], n + 1);
  }

  /** The count of digits read carries over from one part of the input to the next. */
  lemma {:induction false} StrayPadSplit(a: string, b: string, i: nat)
    requires !StrayPad(a, i)
    ensures StrayPad(a + b, i) == StrayPad(b, i + |Sextets(a)|)
  {
    if a == [] {
      assert a + b == b;
    } else {
      assert (a + b)[0] == a[0];
      assert (a + b)[1..] == a[1..] + b;
      StrayPadSplit(a[1..], b, if DigitValue(a[0]).Some? then i + 1 else i);
    }
  }

  /** Digits never hold a `=`, so a `=` after them is judged by their count alone. */
  lemma {:induction false} StrayPadAfterDigits(q: seq<nat>, pad: string, i: nat)
    requires forall k :: 0 <= k < |q| ==> q[k] < 64
    ensures StrayPad(Digits(q) + pad, i) == StrayPad(pad, i + |q|)
  {
    if q == [] {
      assert Digits(q) + pad == pad;
    } else {
      var t := Digits(q) + pad;
      DigitRoundTrip(q[0]);
      assert t[0] == Digit(q[0]);
      assert t[0] != '=' by {
        assert DigitValue('=') == None;
      }
      assert DigitValue(t[0]).Some?;
      assert t[1..] == Digits(q[1..]) + pad;
      StrayPadAfterDigits(q[1..], pad, i + 1);
      assert StrayPad(t, i) == StrayPad(t[1..], i + 1);
    }
  }

  /** One group of three bytes survives the trip through four sextets. */
  lemma ThreeBytes(b0: nat, b1: nat, b2: nat)
    requires b0 < 256 && b1 < 256 && b2 < 256
    ensures (b0 / 4) * 4 + (b0 % 4 * 16 + b1 / 16) / 16 == b0
    ensures (b0 % 4 * 16 + b1 / 16) % 16 * 16 + (b1 % 16 * 4 + b2 / 64) / 4 == b1
    ensures (b1 % 16 * 4 + b2 / 64) % 4 * 64 + b2 % 64 == b2
  {
  }

  /** Decoding a leading group of four sextets. */
  lemma {:induction false} DecodeFour(v0: nat, v1: nat, v2: nat, v3: nat, t: seq<nat>)
    ensures DecodeSextets([v0, v1, v2, v3] + t)
         == [Chr(v0 * 4 + v1 / 16), Chr(v1 % 16 * 16 + v2 / 4), Chr(v2 % 4 * 64 + v3)] + DecodeSextets(t)
  {
    var q := [v0, v1, v2, v3] + t;
    assert q[4..] == t;
  }

  /** The group of four sextets made from three bytes decodes to those bytes. */
  lemma {:induction false} DecodeGroup(b0: nat, b1: nat, b2: nat, t: seq<nat>)
    requires b0 < 256 && b1 < 256 && b2 < 256
    ensures DecodeSextets([b0 / 4, b0 % 4 * 16 + b1 / 16, b1 % 16 * 4 + b2 / 64, b2 % 64] + t)
         == [Chr(b0), Chr(b1), Chr(b2)] + DecodeSextets(t)
  {
    var v0, v1, v2, v3 := b0 / 4, b0 % 4 * 16 + b1 / 16, b1 % 16 * 4 + b2 / 64, b2 % 64;
    ThreeBytes(b0, b1, b2);
    assert v0 * 4 + v1 / 16 == b0 && v1 % 16 * 16 + v2 / 4 == b1 && v2 % 4 * 64 + v3 == b2;
    DecodeFour(v0, v1, v2, v3, t);
  }

  /** The first three bytes of `s` become its first four sextets. */
  lemma {:induction false} GroupHead(s: string)
    requires |s| >= 3
    ensures var b0, b1, b2 := ByteOf(s[0]), ByteOf(s[1]), ByteOf(s[2]);
      GroupSextets(s)
      == [b0 / 4, b0 % 4 * 16 + b1 / 16, b1 % 16 * 4 + b2 / 64, b2 % 64] + GroupSextets(s[3..])
  {
  }

  /** The first group of a string of at least three bytes decodes to those bytes. */
  lemma {:induction false} FirstGroup(s: string)
    requires IsBytes(s) && |s| >= 3
    ensures DecodeSextets(GroupSextets(s)) == s[..3] + DecodeSextets(GroupSextets(s[3..]))
  {
    GroupHead(s);
    DecodeGroup(ByteOf(s[0]), ByteOf(s[1]), ByteOf(s[2]), GroupSextets(s[3..]));
    CharsBack(s);
  }

  /** Characters below 256 survive the trip through their byte values. */
  lemma {:induction false} CharsBack(s: string)
    requires IsBytes(s) && |s| >= 3
    ensures [Chr(ByteOf(s[0])), Chr(ByteOf(s[1])), Chr(ByteOf(s[2]))] == s[..3]
  {
    assert s[0] as int < 256 && s[1] as int < 256 && s[2] as int < 256;
  }

  /** The sextets of a byte string, three bytes at a time, decode back to it. */
  lemma {:induction false} DecodeGroups(s: string)
    requires IsBytes(s)
    ensures DecodeSextets(GroupSextets(s)) == s
    decreases |s|
  {
    if |s| == 0 {
    } else if |s| == 1 {
      ThreeBytes(ByteOf(s[0]), 0, 0);
    } else if |s| == 2 {
      ThreeBytes(ByteOf(s[0]), ByteOf(s[1]), 0);
    } else {
      FirstGroup(s);
      DecodeGroups(s[3..]);
      assert s == s[..3] + s[3..];
    }
  }

  /** Decoding what was encoded gives the bytes back. */
  lemma {:induction false} DecodeEncode(s: string)
    requires IsBytes(s)
    ensures Decode(Encode(s)) == Some(s)
  {
    var q := GroupSextets(s);
    var pad := if |s| % 3 == 1 then "==" else if |s| % 3 == 2 then "=" else "";
    EncodeReadWhole(s);
    GroupSextetsBound(s);
    SextetsAppend(Digits(q), pad);
    SextetsOfDigits(q);
    assert Sextets(pad) == [];
    assert q + [] == q;
    DecodeGroups(s);
  }

  /** The decoder reads the whole of an encoding and never fails on it. */
  lemma {:induction false} EncodeReadWhole(s: string)
    ensures BeforeNul(Encode(s)) == Encode(s)
    ensures !StrayPad(Encode(s), 0)
  {
    EncodeNoNul(s);
    NoNulKept(Encode(s));
    EncodeNoStrayPad(s);
  }

  /** An encoding holds no NUL. */
  lemma {:induction false} EncodeNoNul(s: string)
    ensures '\0' !in Encode(s)
  {
    EncodeAlphabet(s);
    forall k | 0 <= k < |Encode(s)|
      ensures Encode(s)[k] != '\0'
    {
      assert Encode(s)[k] == '=' || DigitValue(Encode(s)[k]).Some?;
    }
  }

  /** The padding of an encoding follows two or three digits of the last group, never one. */
  lemma {:induction false} EncodeNoStrayPad(s: string)
    ensures !StrayPad(Encode(s), 0)
  {
    var q := GroupSextets(s);
    var pad := if |s| % 3 == 1 then "==" else if |s| % 3 == 2 then "=" else "";
    assert Encode(s) == Digits(q) + pad;
    GroupSextetsBound(s);
    StrayPadAfterDigits(q, pad, 0);
    GroupCountMod(s);
    PadAfterGroups(|q|, pad);
  }

  /** The digits of an encoding leave two digits in the last group for one byte, three for two. */
  lemma {:induction false} GroupCountMod(s: string)
    ensures |GroupSextets(s)| % 4 == (if |s| % 3 == 0 then 0 else |s| % 3 + 1)
    decreases |s|
  {
    if |s| >= 3 {
      GroupCountMod(s[3..]);
      assert |GroupSextets(s)| == 4 + |GroupSextets(s[3..])|;
      assert |s| % 3 == |s[3..]| % 3;
    }
  }

  /** `==` after two digits of a group, `=` after three, or no padding at all, never fails. */
  lemma PadAfterGroups(n: nat, pad: string)
    requires pad == (if n % 4 == 2 then "==" else if n % 4 == 3 then "=" else "")
    ensures !StrayPad(pad, n)
  {
    assert DigitValue('=') == None;
    if n % 4 == 2 {
      assert pad[1..] == "=" && "="[1..] == "";
      assert StrayPad(pad, n) == StrayPad("=", n) == StrayPad("", n);
    } else if n % 4 == 3 {
      assert "="[1..] == "";
    }
  }

  /** Digits are alphabet characters. */
  lemma {:induction false} DigitsAlphabet(q: seq<nat>)
    requires forall i :: 0 <= i < |q| ==> q[i] < 64
    ensures forall i :: 0 <= i < |Digits(q)| ==> DigitValue(Digits(q)[i]).Some?
  {
    if q != [] {
      DigitRoundTrip(q[0]);
      DigitsAlphabet(q[1..]);
    }
  }

  /** The encoding holds alphabet digits and trailing padding only, never `?`, `:` or a line break. */
  lemma {:induction false} EncodeAlphabet(s: string)
    ensures forall i :: 0 <= i < |Encode(s)| ==> Encode(s)[i] == '=' || DigitValue(Encode(s)[i]).Some?
  {
    GroupSextetsBound(s);
    DigitsAlphabet(GroupSextets(s));
  }
}
