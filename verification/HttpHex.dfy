/** The percent codecs of `common_rl`: `http_hextochar`, `http_enhex` and the
    in-place rewriting of `http_unhex` (percent-encoding, section 2.1 of RFC 3986). */
module HttpHex {
  import opened Options
  import opened CommonRl

  // "0123456789ABCDEF"
  const HEXITS: Bytes := [48, 49, 50, 51, 52, 53, 54, 55, 56, 57, 65, 66, 67, 68, 69, 70]

  function HexDigit(v: nat): Byte
    requires v < 16
  {
    if v < 10 then ZERO + v else 'A' as int + (v - 10)
  }

  function Upcase(b: Byte): Byte {
    if 'a' as int <= b <= 'z' as int then b - 32 else b
  }

  /** The place of an upper-cased byte among the hex digits, -1 for npos. */
  function DigitValue(b: Byte): int {
    var u := Upcase(b);
    if ZERO <= u < ZERO + 10 then u - ZERO
    else if 'A' as int <= u < 'G' as int then u - 'A' as int + 10
    else -1
  }

  /** `http_hextochar` on one or two bytes: the unsigned sum cut to a byte.  The
      byte after a single one is the string's terminating NUL, which is no digit. */
  function HexToChar(s: Bytes): Byte
    requires 1 <= |s| <= 2
  {
    (16 * DigitValue(s[0]) + (if |s| == 2 then DigitValue(s[1]) else -1)) % 256
  }

  function EnhexByte(b: Byte): Bytes { [PERCENT, HexDigit(b / 16), HexDigit(b % 16)] }

  function EnhexAll(s: Bytes): Bytes {
    if s == [] then [] else EnhexByte(s[0]) + EnhexAll(s[1..])
  }

  lemma Triple(out: Bytes, a: Byte, b: Byte, c: Byte)
    ensures out + [a] + [b] + [c] == out + [a, b, c]
  {
  }

  method HttpEnhex(s: Bytes) returns (out: Bytes)
    ensures out == EnhexAll(s)
  {
    out := [];
    var i := 0;
    assert s[0..] == s;
    while i < |s|
      invariant i <= |s| && EnhexAll(s) == out + EnhexAll(s[i..])
    {
      var v := s[i];
      assert s[i..][1..] == s[i + 1..];
      Concat(out, EnhexByte(v), EnhexAll(s[i + 1..]));
      Triple(out, PERCENT, HexDigit(v / 16), HexDigit(v % 16));
      out := out + [PERCENT];
      out := out + [HexDigit(v / 16)];
      out := out + [HexDigit(v % 16)];
      i := i + 1;
    }
  }

  function Min(a: int, b: int): int { if a < b then a else b }

  /** One turn of the loop: the three bytes at `where`, or what is left of them,
      are erased and the decoded byte is inserted. */
  function DecodeAt(s: Bytes, where: nat): (r: Bytes)
    requires where + 1 < |s|
    ensures |r| < |s|
  {
    var end := Min(where + 3, |s|);
    s[..where] + [HexToChar(s[where + 1..end])] + s[end..]
  }

  /** What the loop leaves; None if it meets a percent sign that is the last byte,
      where the source reads beyond the end of the string. */
  function Unhex(s: Bytes): Option<Bytes>
    decreases |s|
  {
    var where := IndexOf(s, PERCENT, 0);
    if where == -1 then Some(s)
    else if where + 1 == |s| then None
    else Unhex(DecodeAt(s, where))
  }

  method HttpUnhex(source: Bytes) returns (r: Option<Bytes>)
    ensures r == Unhex(source)
    // The loop ends because the string gets shorter, and it ends without percent signs.
    ensures r.Some? ==> PERCENT !in r.value && |r.value| <= |source|
  {
    var s := source;
    while IndexOf(s, PERCENT, 0) != -1
      invariant Unhex(s) == Unhex(source) && |s| <= |source|
      decreases |s|
    {
      var where := IndexOf(s, PERCENT, 0);
      if where + 1 == |s| {
        return None;
      }
      var end := Min(where + 3, |s|);
      var hexchar := s[where + 1..end];
      s := s[..where] + s[end..];
      s := s[..where] + [HexToChar(hexchar)] + s[where..];
    }
    return Some(s);
  }

  function After(done: Bytes, r: Option<Bytes>): Option<Bytes> {
    match r case None => None case Some(t) => Some(done + t)
  }

  /** The decoder that the codec is meant to be: left to right, once. */
  function DecodeOnce(s: Bytes): Option<Bytes> {
    if s == [] then Some([])
    else if s[0] != PERCENT then
      After([s[0]], DecodeOnce(s[1..]))
    else if |s| == 1 then None
    else
      var end := Min(3, |s|);
      After([HexToChar(s[1..end])], DecodeOnce(s[end..]))
  }

  /** What the loop does, on every input, seen from left to right: a decoded byte is
      pushed back in front of what is still to be read. */
  function Pushback(s: Bytes): Option<Bytes>
    decreases |s|
  {
    if s == [] then Some([])
    else if s[0] != PERCENT then
      After([s[0]], Pushback(s[1..]))
    else if |s| == 1 then None
    else
      var end := Min(3, |s|);
      Pushback([HexToChar(s[1..end])] + s[end..])
  }

  lemma PercentStep(done: Bytes, s: Bytes)
    requires PERCENT !in done && |s| > 1 && s[0] == PERCENT
    ensures var end := Min(3, |s|);
            Unhex(done + s) == Unhex(done + ([HexToChar(s[1..end])] + s[end..]))
  {
    var end, whole := Min(3, |s|), done + s;
    IndexIs(whole, PERCENT, 0, |done|);
    assert Min(|done| + 3, |whole|) == |done| + end;
    assert whole[|done| + 1..|done| + end] == s[1..end];
    assert whole[..|done|] == done && whole[|done| + end..] == s[end..];
    assert DecodeAt(whole, |done|) == done + ([HexToChar(s[1..end])] + s[end..]);
  }

  lemma AfterOne(done: Bytes, b: Byte, r: Option<Bytes>)
    ensures After(done, After([b], r)) == After(done + [b], r)
  {
    if r.Some? {
      Concat(done, [b], r.value);
    }
  }

  lemma {:induction false} UnhexAfter(done: Bytes, s: Bytes)
    requires PERCENT !in done
    ensures Unhex(done + s) == After(done, Pushback(s))
    decreases |s|
  {
    if s == [] {
      IndexNone(done + s, PERCENT, 0);
      assert done + s == done + [];
    } else if s[0] != PERCENT {
      AfterOne(done, s[0], Pushback(s[1..]));
      assert done + s == done + [s[0]] + s[1..];
      UnhexAfter(done + [s[0]], s[1..]);
    } else if |s| == 1 {
      IndexIs(done + s, PERCENT, 0, |done|);
    } else {
      var end := Min(3, |s|);
      PercentStep(done, s);
      UnhexAfter(done, [HexToChar(s[1..end])] + s[end..]);
    }
  }

  /** On every input the rewriting loop is the reader that pushes decoded bytes back. */
  lemma UnhexIsPushback(s: Bytes)
    ensures Unhex(s) == Pushback(s)
  {
    UnhexAfter([], s);
    assert [] + s == s;
    if Pushback(s).Some? {
      assert [] + Pushback(s).value == Pushback(s).value;
    }
  }

  /** The single pass decodes a percent sign somewhere. */
  predicate YieldsPercent(s: Bytes)
    decreases |s|
  {
    if s == [] then false
    else if s[0] != PERCENT then YieldsPercent(s[1..])
    else if |s| == 1 then false
    else
      var end := Min(3, |s|);
      HexToChar(s[1..end]) == PERCENT || YieldsPercent(s[end..])
  }

  lemma {:induction false} PushbackIsOnePass(s: Bytes)
    requires !YieldsPercent(s)
    ensures Pushback(s) == DecodeOnce(s)
    decreases |s|
  {
    if s != [] {
      if s[0] != PERCENT {
        PushbackIsOnePass(s[1..]);
      } else if |s| > 1 {
        var end := Min(3, |s|);
        PushbackIsOnePass(s[end..]);
        assert ([HexToChar(s[1..end])] + s[end..])[1..] == s[end..];
      }
    }
  }

  lemma {:induction false} YieldsPercentIff(s: Bytes)
    requires DecodeOnce(s).Some?
    ensures YieldsPercent(s) <==> PERCENT in DecodeOnce(s).value
    decreases |s|
  {
    if s != [] {
      if s[0] != PERCENT {
        YieldsPercentIff(s[1..]);
      } else if |s| > 1 {
        YieldsPercentIff(s[Min(3, |s|)..]);
      }
    }
  }

  lemma {:induction false} NoPercentLeft(s: Bytes)
    requires Unhex(s).Some?
    ensures PERCENT !in Unhex(s).value
    decreases |s|
  {
    var where := IndexOf(s, PERCENT, 0);
    if where != -1 {
      NoPercentLeft(DecodeAt(s, where));
    }
  }

  /** Where the single pass decodes no percent sign, the loop agrees with it, whether
      it ends well or at a lone percent sign.  Where the pass ends well, the loop
      agrees with it if and only if it decodes no percent sign; otherwise the loop
      decodes what it has decoded again. */
  lemma UnhexIsOnePassIff(s: Bytes)
    ensures !YieldsPercent(s) ==> Unhex(s) == DecodeOnce(s)
    ensures DecodeOnce(s).Some? ==> (Unhex(s) == DecodeOnce(s) <==> PERCENT !in DecodeOnce(s).value)
  {
    UnhexIsPushback(s);
    if !YieldsPercent(s) {
      PushbackIsOnePass(s);
    }
    if DecodeOnce(s).Some? {
      YieldsPercentIff(s);
      if Unhex(s).Some? {
        NoPercentLeft(s);
      }
    }
  }

  /** Where the pass decodes a percent sign and then meets a lone one, the loop may
      do either: "%2541%" ends at the lone sign, "%25%" is read as one byte. */
  lemma LonePercent()
    ensures var a, b := EnhexByte(PERCENT) + [ZERO + 4, ZERO + 1, PERCENT], EnhexByte(PERCENT) + [PERCENT];
            Unhex(a) == None && Unhex(b) == Some([239])
  {
    DecodeByte(PERCENT);
    var a, b := EnhexByte(PERCENT) + [ZERO + 4, ZERO + 1, PERCENT], EnhexByte(PERCENT) + [PERCENT];
    assert a[1..3] == EnhexByte(PERCENT)[1..] && b[1..3] == EnhexByte(PERCENT)[1..];
    var a1: Bytes := [PERCENT, ZERO + 4, ZERO + 1, PERCENT];
    var a2: Bytes := ['A' as int, PERCENT];
    assert DecodeAt(a, 0) == a1;
    assert a1[1..3] == [ZERO + 4, ZERO + 1];
    assert DecodeAt(a1, 0) == a2;
    assert IndexOf(a2, PERCENT, 0) == 1;
    assert Unhex(a1) == Unhex(a2) == None;
    var b1: Bytes := [PERCENT, PERCENT];
    var b2: Bytes := [239];
    assert DecodeAt(b, 0) == b1;
    assert b1[1..2] == [PERCENT];
    assert DecodeAt(b1, 0) == b2;
    assert Unhex(b1) == Unhex(b2) == Some(b2);
  }

  /** The digits, in either case. */
  predicate IsHexit(b: Byte) {
    ZERO <= b < ZERO + 10 || 'A' as int <= b <= 'F' as int || 'a' as int <= b <= 'f' as int
  }

  /** The digits and their places are those of the source's string of digits. */
  lemma Hexits(b: Byte, v: nat)
    requires v < 16
    ensures DigitValue(b) == IndexOf(HEXITS, Upcase(b), 0) && HexDigit(v) == HEXITS[v]
  {
    var u := Upcase(b);
    if IsHexit(b) {
      assert HEXITS[DigitValue(b)] == u;
      IndexIs(HEXITS, u, 0, DigitValue(b));
    } else {
      IndexNone(HEXITS, u, 0);
    }
  }

  /** Two digits stand for one byte, sixteen times the first and once the second,
      whatever their case. */
  lemma EitherCase(a: Byte, b: Byte)
    requires IsHexit(a) && IsHexit(b)
    ensures HexToChar([a, b]) == 16 * DigitValue(a) + DigitValue(b)
    ensures HexToChar([a, b]) == HexToChar([Upcase(a), b]) == HexToChar([a, Upcase(b)])
  {
  }

  const LONG := 0x1_0000_0000_0000_0000

  /** `find` as the source has it: an unsigned 64-bit number, npos the largest. */
  function Find64(b: Byte): nat { if DigitValue(b) == -1 then LONG - 1 else DigitValue(b) }

  /** On any two bytes, digits or not, the sum is that of the source's unsigned
      arithmetic, cut to a byte. */
  lemma WordArithmetic(a: Byte, b: Byte)
    ensures HexToChar([a, b]) == ((16 * Find64(a)) % LONG + Find64(b)) % LONG % 256
  {
    WordSum(DigitValue(a), DigitValue(b));
  }

  lemma WordSum(x: int, y: int)
    requires -1 <= x < 16 && -1 <= y < 16
    ensures var fx, fy := if x == -1 then LONG - 1 else x, if y == -1 then LONG - 1 else y;
            (16 * x + y) % 256 == ((16 * fx) % LONG + fy) % LONG % 256
  {
    var fx, fy := if x == -1 then LONG - 1 else x, if y == -1 then LONG - 1 else y;
    var wide := (16 * fx) % LONG;
    if x == -1 {
      assert 16 * fx == 15 * LONG + (LONG - 16);
      assert wide == LONG - 16;
    } else {
      assert wide == 16 * x;
    }
    var sum := wide + fy;
    assert sum % LONG == if 16 * x + y < 0 then 16 * x + y + LONG else 16 * x + y;
  }

  /** What is written holds percent signs, digits and upper-case letters only. */
  lemma {:induction false} EnhexAlphabet(s: Bytes, b: Byte)
    requires b in EnhexAll(s)
    ensures b == PERCENT || b in HEXITS
  {
    if b in EnhexByte(s[0]) {
      Hexits(b, s[0] / 16);
      Hexits(b, s[0] % 16);
    } else {
      EnhexAlphabet(s[1..], b);
    }
  }

  lemma DecodeByte(b: Byte)
    ensures HexToChar(EnhexByte(b)[1..]) == b
  {
    assert DigitValue(HexDigit(b / 16)) == b / 16 && DigitValue(HexDigit(b % 16)) == b % 16;
  }

  lemma {:induction false} DecodeEnhexed(s: Bytes)
    ensures DecodeOnce(EnhexAll(s)) == Some(s)
  {
    if s != [] {
      var e := EnhexAll(s);
      assert |e| >= 3 && e[0] == PERCENT;
      assert e[1..3] == EnhexByte(s[0])[1..] && e[3..] == EnhexAll(s[1..]);
      DecodeByte(s[0]);
      DecodeEnhexed(s[1..]);
      assert s == [s[0]] + s[1..];
    }
  }

  /** Decoding undoes encoding exactly on the strings without a percent sign. */
  lemma EnhexRoundTripIff(s: Bytes)
    ensures Unhex(EnhexAll(s)) == Some(s) <==> PERCENT !in s
  {
    DecodeEnhexed(s);
    UnhexIsOnePassIff(EnhexAll(s));
  }

  /** An encoded percent sign is decoded twice: "%2541" is read as "A". */
  lemma DecodedTwice()
    ensures Unhex(EnhexByte(PERCENT) + [ZERO + 4, ZERO + 1]) == Some(['A' as int])
  {
    var s := EnhexByte(PERCENT) + [ZERO + 4, ZERO + 1];
    var s1: Bytes := [PERCENT, ZERO + 4, ZERO + 1];
    DecodeByte(PERCENT);
    assert s[1..3] == EnhexByte(PERCENT)[1..];
    assert DecodeAt(s, 0) == s1;
    assert s1[1..3] == [ZERO + 4, ZERO + 1];
    var a: Bytes := ['A' as int];
    assert DecodeAt(s1, 0) == a;
    assert Unhex(s1) == Unhex(a) == Some(a);
  }
}
