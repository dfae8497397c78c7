/**
 * The APNs device-token formatter of the application delegate
 * (FirebasePushMessaging/FirebasePushMessagingApp.swift, lines 58-64).
 *
 * The token is a byte sequence. Each byte is appended to `readableToken` as
 * `%02.2hhx`: exactly two lowercase hexadecimal digits, zero-padded, high nibble
 * first. This is Base16 (section 8 of RFC 4648) with the lowercase alphabet.
 * `Hex` is the specification, `FormatDeviceToken` the loop that builds it, and
 * `HexDecode` the inverse used to prove that the encoding loses nothing.
 */
module DeviceToken {
  import opened Wrappers

  /** One element of a `Data` value. */
  newtype uint8 = x: int | 0 <= x < 256

  /** The alphabet `%02.2hhx` writes: `0-9` and `a-f`, never upper case. */
  predicate IsLowerHex(c: char) {
    '0' <= c <= '9' || 'a' <= c <= 'f'
  }

  /** The value of one lowercase hexadecimal digit, or None for any other character. */
  function DigitValue(c: char): (r: Option<nat>)
    ensures r.Some? <==> IsLowerHex(c)
    ensures r.Some? ==> r.value < 16
  {
    if '0' <= c <= '9' then Some(c as int - '0' as int)
    else if 'a' <= c <= 'f' then Some(c as int - 'a' as int + 10)
    else None
  }

  /** The lowercase digit of a nibble. */
  function Digit(n: nat): (c: char)
    requires n < 16
    ensures IsLowerHex(c) && DigitValue(c) == Some(n)
  {
    if n < 10 then ('0' as int + n) as char else ('a' as int + n - 10) as char
  }

  /** Every lowercase hexadecimal digit is the digit of its own value. */
  lemma DigitOfValue(c: char)
    requires IsLowerHex(c)
    ensures DigitValue(c).Some? && Digit(DigitValue(c).value) == c
  {
  }

  /** `String(format: "%02.2hhx", b)`: two digits whose base-16 value is `b`. */
  function ByteHex(b: uint8): (r: string)
    ensures |r| == 2 && IsLowerHex(r[0]) && IsLowerHex(r[1])
    ensures DigitValue(r[0]).value * 16 + DigitValue(r[1]).value == b as int
  {
    [Digit(b as int / 16), Digit(b as int % 16)]
  }

  /** The readable token of a byte sequence: the pairs of all bytes, in order. */
  function Hex(bytes: seq<uint8>): (r: string)
    ensures |r| == 2 * |bytes|
  {
    if |bytes| == 0 then "" else Hex(bytes[..|bytes| - 1]) + ByteHex(bytes[|bytes| - 1])
  }

  /** The byte spelled by a pair of lowercase digits, high nibble first. */
  function PairValue(hi: char, lo: char): (r: Option<uint8>)
    ensures r.Some? <==> IsLowerHex(hi) && IsLowerHex(lo)
    ensures r.Some? ==> r.value as int == DigitValue(hi).value * 16 + DigitValue(lo).value
  {
    match (DigitValue(hi), DigitValue(lo))
    case (Some(h), Some(l)) => Some((h * 16 + l) as uint8)
    case _ => None
  }

  /** Reads a readable token back into bytes; None unless it has even length and only lowercase digits. */
  function HexDecode(s: string): (r: Option<seq<uint8>>)
    ensures r.Some? ==> 2 * |r.value| == |s|
    ensures r.Some? <==> |s| % 2 == 0 && forall k :: 0 <= k < |s| ==> IsLowerHex(s[k])
    decreases |s|
  {
    if |s| == 0 then Some([])
    else if |s| == 1 then None
    else
      var front := s[..|s| - 2];
      assert forall k :: 0 <= k < |front| ==> front[k] == s[k];
      match (HexDecode(front), PairValue(s[|s| - 2], s[|s| - 1]))
      case (Some(prefix), Some(b)) => Some(prefix + [b])
      case _ => None
  }

  /** Formatting a concatenation formats the parts one after the other. */
  lemma {:induction false} HexConcat(a: seq<uint8>, b: seq<uint8>)
    ensures Hex(a + b) == Hex(a) + Hex(b)
    decreases |b|
  {
    if |b| == 0 {
      assert a + b == a;
    } else {
      var b' := b[..|b| - 1];
      assert (a + b)[..|a + b| - 1] == a + b';
      assert (a + b)[|a + b| - 1] == b[|b| - 1];
      HexConcat(a, b');
    }
  }

  /** Byte `i` occupies characters `2i` and `2i+1`, high nibble first. */
  lemma {:induction false} HexAt(bytes: seq<uint8>, i: nat)
    requires i < |bytes|
    ensures Hex(bytes)[2 * i..2 * i + 2] == ByteHex(bytes[i])
    ensures Hex(bytes)[2 * i] == Digit(bytes[i] as int / 16)
    ensures Hex(bytes)[2 * i + 1] == Digit(bytes[i] as int % 16)
  {
    var front, rest := bytes[..i], bytes[i..];
    assert bytes == front + rest;
    HexConcat(front, rest);
    assert rest == [bytes[i]] + rest[1..];
    HexConcat([bytes[i]], rest[1..]);
    assert [bytes[i]][..0] == [];
    assert Hex([bytes[i]]) == ByteHex(bytes[i]);
  }

  /** Every character of a readable token is `0-9` or `a-f`. */
  lemma HexAlphabet(bytes: seq<uint8>)
    ensures forall k :: 0 <= k < |Hex(bytes)| ==> IsLowerHex(Hex(bytes)[k])
  {
    forall k | 0 <= k < |Hex(bytes)|
      ensures IsLowerHex(Hex(bytes)[k])
    {
      HexAt(bytes, k / 2);
    }
  }

  /** Decoding a readable token gives back exactly the token's bytes. */
  lemma {:induction false} DecodeHex(bytes: seq<uint8>)
    ensures HexDecode(Hex(bytes)) == Some(bytes)
  {
    if |bytes| > 0 {
      var front, last := bytes[..|bytes| - 1], bytes[|bytes| - 1];
      var s := Hex(bytes);
      assert s == Hex(front) + ByteHex(last);
      assert s[..|s| - 2] == Hex(front);
      assert s[|s| - 2..] == ByteHex(last);
      DecodeHex(front);
      assert bytes == front + [last];
    }
  }

  /** A pair of lowercase digits is the formatted form of the byte it spells. */
  lemma ByteHexOfPair(hi: char, lo: char)
    requires IsLowerHex(hi) && IsLowerHex(lo)
    ensures ByteHex(PairValue(hi, lo).value) == [hi, lo]
  {
    var b := PairValue(hi, lo).value;
    var h, l := DigitValue(hi).value, DigitValue(lo).value;
    assert b as int / 16 == h && b as int % 16 == l;
    DigitOfValue(hi);
    DigitOfValue(lo);
  }

  /** Whatever decodes is the readable token of what it decodes to. */
  lemma {:induction false} HexOfDecode(s: string)
    requires HexDecode(s).Some?
    ensures Hex(HexDecode(s).value) == s
    decreases |s|
  {
    if |s| > 0 {
      var front, hi, lo := s[..|s| - 2], s[|s| - 2], s[|s| - 1];
      var prefix := HexDecode(front).value;
      var b := PairValue(hi, lo).value;
      var r := prefix + [b];
      assert HexDecode(s).value == r;
      assert r[..|r| - 1] == prefix;
      assert Hex(r) == Hex(prefix) + ByteHex(b);
      HexOfDecode(front);
      ByteHexOfPair(hi, lo);
      assert s == front + [hi, lo];
    }
  }

  /** Two tokens with the same readable form are the same token. */
  lemma HexInjective(a: seq<uint8>, b: seq<uint8>)
    requires Hex(a) == Hex(b)
    ensures a == b
  {
    DecodeHex(a);
    DecodeHex(b);
  }

  /** `%02.2hhx` pads a small byte with a leading zero. */
  lemma ZeroPadded()
    ensures ByteHex(0x05) == "05"
    ensures ByteHex(0x00) == "00"
    ensures ByteHex(0xFF) == "ff"
  {
  }

  /** The token `[0x1A, 0x2B]` reads `"1a2b"`; the empty token reads `""`. */
  lemma Examples()
    ensures Hex([0x1A, 0x2B]) == "1a2b"
    ensures Hex([]) == ""
  {
    assert [0x1A, 0x2B][..1] == [0x1A as uint8];
    assert Hex([0x1A]) == "1a";
  }

  /**
   * The body of `application(_:didRegisterForRemoteNotificationsWithDeviceToken:)`
   * up to the log line: start from the empty string and append each byte's pair.
   */
  method FormatDeviceToken(deviceToken: seq<uint8>) returns (readableToken: string)
    ensures readableToken == Hex(deviceToken)
  {
    readableToken := "";
    for index := 0 to |deviceToken|
      invariant readableToken == Hex(deviceToken[..index])
    {
      assert deviceToken[..index + 1][..index] == deviceToken[..index];
      readableToken := readableToken + ByteHex(deviceToken[index]);
    }
    assert deviceToken[..|deviceToken|] == deviceToken;
  }
}
