/** Percent-decoding of the path of a REST request (section 2.1 of RFC 3986). */
module UrlDecode {
  import opened RawContents

  const PERCENT: byte := 37

  /** isxdigit: 0-9, A-F and a-f. */
  predicate IsHexDigit(c: byte) {
    48 <= c <= 57 || 65 <= c <= 70 || 97 <= c <= 102
  }

  function DigitValue(c: byte): (r: int)
    requires IsHexDigit(c)
    ensures 0 <= r < 16
  {
    var code: int := c;
    if code <= 57 then code - 48 else if code <= 70 then code - 55 else code - 87
  }

  /** The byte that two hexadecimal digits stand for. */
  function HexValue(high: byte, low: byte): byte
    requires IsHexDigit(high) && IsHexDigit(low)
  {
    var value: int := 16 * DigitValue(high) + DigitValue(low);
    value
  }

  /** The characters behind these codes, with their values, and the order of the two digits. */
  lemma HexDigits(c: byte, low: byte)
    ensures IsHexDigit(c) <==> c as char in "0123456789ABCDEFabcdef"
    ensures IsHexDigit(c) ==> var v := DigitValue(c); "0123456789ABCDEF"[v] == c as char || "0123456789abcdef"[v] == c as char
    ensures IsHexDigit(c) && IsHexDigit(low) ==>
              var value: int := HexValue(c, low); value / 16 == DigitValue(c) && value % 16 == DigitValue(low)
    ensures PERCENT as char == '%'
  {
    if IsHexDigit(c) {
      var i: nat := if c <= 57 then c - 48 else if c <= 70 then c - 55 else c - 81;
      assert "0123456789ABCDEFabcdef"[i] == c as char;
    }
  }

  /** A percent sign followed by two hexadecimal digits. */
  predicate EscapeAt(s: seq<byte>, i: nat) {
    i + 2 < |s| && s[i] == PERCENT && IsHexDigit(s[i + 1]) && IsHexDigit(s[i + 2])
  }

  function Decoded(s: seq<byte>): seq<byte> {
    if s == [] then []
    else if EscapeAt(s, 0) then [HexValue(s[1], s[2])] + Decoded(s[3..])
    else [s[0]] + Decoded(s[1..])
  }

  /** The first i bytes of s have been decoded to "done". */
  ghost predicate DecodedTo(s: seq<byte>, i: nat, done: seq<byte>) {
    i <= |s| && done + Decoded(s[i..]) == Decoded(s)
  }

  lemma DecodedStep(s: seq<byte>, i: nat, done: seq<byte>)
    requires i < |s| && DecodedTo(s, i, done)
    ensures EscapeAt(s, i) ==> DecodedTo(s, i + 3, done + [HexValue(s[i + 1], s[i + 2])])
    ensures !EscapeAt(s, i) ==> DecodedTo(s, i + 1, done + [s[i]])
  {
    DecodedNext(s, i);
  }

  method Decode(encoded: seq<byte>) returns (decoded: seq<byte>)
    ensures decoded == Decoded(encoded)
  {
    decoded := [];
    var i: nat := 0;
    assert encoded[0..] == encoded;
    assert [] + Decoded(encoded) == Decoded(encoded);
    while i < |encoded|
      invariant DecodedTo(encoded, i, decoded)
    {
      DecodedStep(encoded, i, decoded);
      if encoded[i] == PERCENT {
        if i + 2 < |encoded| && IsHexDigit(encoded[i + 1]) && IsHexDigit(encoded[i + 2]) {
          decoded := decoded + [HexValue(encoded[i + 1], encoded[i + 2])];
          i := i + 2;
        } else {
          decoded := decoded + [PERCENT];
        }
      } else {
        decoded := decoded + [encoded[i]];
      }
      i := i + 1;
    }
    assert encoded[i..] == [];
  }

  lemma DecodedNext(s: seq<byte>, i: nat)
    requires i < |s|
    ensures Decoded(s[i..])
            == if EscapeAt(s, i) then [HexValue(s[i + 1], s[i + 2])] + Decoded(s[i + 3..])
               else [s[i]] + Decoded(s[i + 1..])
  {
    assert s[i..][1..] == s[i + 1..];
    assert EscapeAt(s[i..], 0) <==> EscapeAt(s, i);
    if EscapeAt(s, i) {
      assert s[i..][3..] == s[i + 3..];
    }
  }

  // ---- the round trip ----

  /** s is a percent-encoding of "bytes": each byte either stands for itself, which the
      percent sign may not, or is escaped with digits in either case. */
  ghost predicate EncodingOf(s: seq<byte>, bytes: seq<byte>)
    decreases |bytes|
  {
    if bytes == [] then s == []
    else
      || (s != [] && s[0] == bytes[0] != PERCENT && EncodingOf(s[1..], bytes[1..]))
      || (EscapeAt(s, 0) && HexValue(s[1], s[2]) == bytes[0] && EncodingOf(s[3..], bytes[1..]))
  }

  /** Every percent sign starts an escape. */
  ghost predicate WellFormed(s: seq<byte>) {
    forall i: nat :: i < |s| && s[i] == PERCENT ==> EscapeAt(s, i)
  }

  /** Decoding inverts every percent-encoding of every byte string. */
  lemma {:induction false} DecodeInverts(s: seq<byte>, bytes: seq<byte>)
    requires EncodingOf(s, bytes)
    ensures Decoded(s) == bytes && WellFormed(s)
    decreases |bytes|
  {
    if bytes != [] {
      if EscapeAt(s, 0) && HexValue(s[1], s[2]) == bytes[0] && EncodingOf(s[3..], bytes[1..]) {
        DecodeInverts(s[3..], bytes[1..]);
        WellFormedShift(s, 3);
      } else {
        DecodeInverts(s[1..], bytes[1..]);
        WellFormedShift(s, 1);
      }
      assert bytes == [bytes[0]] + bytes[1..];
    }
  }

  lemma WellFormedShift(s: seq<byte>, k: nat)
    requires 0 < k <= |s| && (forall i :: 1 <= i < k ==> s[i] != PERCENT) && (s[0] == PERCENT ==> EscapeAt(s, 0))
    ensures WellFormed(s[k..]) <==> WellFormed(s)
  {
    assert forall i: nat :: i + k < |s| ==> (EscapeAt(s[k..], i) <==> EscapeAt(s, i + k));
    if WellFormed(s[k..]) {
      forall i: nat | i < |s| && s[i] == PERCENT ensures EscapeAt(s, i) {
        if i >= k {
          assert s[k..][i - k] == PERCENT;
        }
      }
    }
    if WellFormed(s) {
      forall i: nat | i < |s[k..]| && s[k..][i] == PERCENT ensures EscapeAt(s[k..], i) {
        assert EscapeAt(s, i + k);
      }
    }
  }

  /** Whatever is well formed is a percent-encoding of what it decodes to, so a string is
      an encoding of some bytes exactly if it is well formed. */
  lemma {:induction false} WellFormedEncodes(s: seq<byte>)
    requires WellFormed(s)
    ensures EncodingOf(s, Decoded(s))
    decreases |s|
  {
    if s != [] {
      if EscapeAt(s, 0) {
        WellFormedShift(s, 3);
        WellFormedEncodes(s[3..]);
      } else {
        WellFormedShift(s, 1);
        WellFormedEncodes(s[1..]);
      }
    }
  }

  /** Every byte string has an encoding: escape everything. */
  lemma {:induction false} EncodingExists(bytes: seq<byte>)
    ensures exists s :: EncodingOf(s, bytes) && |s| == 3 * |bytes|
  {
    if bytes == [] {
      assert EncodingOf([], bytes);
    } else {
      EncodingExists(bytes[1..]);
      var rest :| EncodingOf(rest, bytes[1..]) && |rest| == 3 * |bytes[1..]|;
      var code: int := bytes[0];
      var high, low := Digit(code / 16), Digit(code % 16);
      var s := [PERCENT, high, low] + rest;
      assert s[3..] == rest && EscapeAt(s, 0) && HexValue(s[1], s[2]) == bytes[0];
      assert EncodingOf(s, bytes);
    }
  }

  function Digit(value: int): (c: byte)
    requires 0 <= value < 16
    ensures IsHexDigit(c) && DigitValue(c) == value
  {
    if value < 10 then 48 + value else 55 + value
  }

  // ---- length ----

  ghost predicate HasEscape(s: seq<byte>) {
    exists i: nat :: EscapeAt(s, i)
  }

  /** Decoding never lengthens its input, and it changes it exactly if it contains an
      escape, which then makes it shorter. */
  lemma {:induction false} NeverLonger(s: seq<byte>)
    ensures |Decoded(s)| <= |s|
    ensures !HasEscape(s) ==> Decoded(s) == s
    ensures HasEscape(s) ==> |Decoded(s)| < |s|
    decreases |s|
  {
    if s != [] {
      if EscapeAt(s, 0) {
        NeverLonger(s[3..]);
      } else {
        NeverLonger(s[1..]);
        HasEscapeShift(s);
        assert s == [s[0]] + s[1..];
      }
    }
  }

  lemma HasEscapeShift(s: seq<byte>)
    requires s != [] && !EscapeAt(s, 0)
    ensures HasEscape(s[1..]) <==> HasEscape(s)
  {
    assert forall i: nat :: EscapeAt(s[1..], i) <==> EscapeAt(s, i + 1);
    if i: nat :| EscapeAt(s, i) {
      assert i > 0 && EscapeAt(s[1..], i - 1);
    }
    if i: nat :| EscapeAt(s[1..], i) {
      assert EscapeAt(s, i + 1);
    }
  }
}
