/**
 * The 64-character alphabet and the 6-character timestamp code used by the
 * heartbeat command (notdoord.py, encode64, decode64, encoded_time, decode_time).
 */
module Codec64 {
  import opened Base

  /** The n consecutive characters starting at first. */
  function Run(first: char, n: nat): (s: string)
    requires first as int + n <= 0xD800
    ensures |s| == n
    ensures forall k :: 0 <= k < n ==> s[k] as int == first as int + k
    decreases n
  {
    if n == 0 then [] else Run(first, n - 1) + [(first as int + n - 1) as char]
  }

  /**
   * The reference alphabet: value v is written as Alphabet[v]; 0-25 are the
   * upper-case letters, 26-51 the lower-case letters, 52-61 the digits.
   */
  const Alphabet: string := Run('A', 26) + Run('a', 26) + Run('0', 10) + ['+', '/']

  lemma InRun(first: char, n: nat, c: char)
    requires first as int + n <= 0xD800
    ensures c in Run(first, n) <==> first as int <= c as int < first as int + n
  {
    if first as int <= c as int < first as int + n {
      assert Run(first, n)[c as int - first as int] == c;
    }
  }

  /** Which characters the alphabet holds, and where. */
  lemma AlphabetMember(c: char)
    ensures c in Alphabet <==> 'A' <= c <= 'Z' || 'a' <= c <= 'z' || '0' <= c <= '9' || c == '+' || c == '/'
    ensures 'A' <= c <= 'Z' ==> Alphabet[c as int - 'A' as int] == c
    ensures 'a' <= c <= 'z' ==> Alphabet[c as int + 26 - 'a' as int] == c
    ensures '0' <= c <= '9' ==> Alphabet[c as int + 52 - '0' as int] == c
  {
    InRun('A', 26, c);
    InRun('a', 26, c);
    InRun('0', 10, c);
  }

  /** What encode64 returns for a value that has no symbol. */
  const Fallback: char := '*'

  /** Number of characters of an encoded timestamp. */
  const TimeWidth: nat := 6

  /** 64^6 = 2^36: the timestamps that the 6-character code distinguishes. */
  const TimeSpan: nat := 68719476736

  function Pow64(n: nat): (p: nat)
    ensures p >= 1
  {
    if n == 0 then 1 else 64 * Pow64(n - 1)
  }

  /** encode64: the symbol for a 6-bit value, or the fallback for larger ones. */
  function Encode64(v: nat): (c: char)
    ensures c == Fallback <==> v >= 64
  {
    if v < 26 then (v + 'A' as int) as char
    else if v - 26 < 26 then (v - 26 + 'a' as int) as char
    else if v - 52 < 10 then (v - 52 + '0' as int) as char
    else if v - 62 == 0 then '+'
    else if v - 62 == 1 then '/'
    else '*'
  }

  /** decode64: the value of a symbol; anything outside the alphabet raises. */
  function Decode64(c: char): (r: Result<nat>)
    ensures r.Success? ==> r.value < 64 && Encode64(r.value) == c
    ensures r.Failure? ==> r.error == BadBase64(c)
  {
    if 'A' <= c <= 'Z' then Success(c as int - 'A' as int)
    else if 'a' <= c <= 'z' then Success(c as int + 26 - 'a' as int)
    else if '0' <= c <= '9' then Success(c as int + 52 - '0' as int)
    else if c == '+' then Success(62)
    else if c == '/' then Success(63)
    else Failure(BadBase64(c))
  }

  lemma Decode64Encode64(v: nat)
    requires v < 64
    ensures Decode64(Encode64(v)) == Success(v)
  {
  }

  /** encode64 writes each 6-bit value as the alphabet's symbol at that position. */
  lemma Encode64Alphabet(v: nat)
    requires v < 64
    ensures Encode64(v) == Alphabet[v]
  {
  }

  /** decode64 accepts exactly the 64 symbols of the alphabet. */
  lemma Decode64Alphabet(c: char)
    ensures Decode64(c).Success? <==> c in Alphabet
  {
    AlphabetMember(c);
  }

  /** The fallback symbol is not part of the alphabet, so it never decodes. */
  lemma FallbackRejected()
    ensures Decode64(Fallback).Failure?
  {
  }

  /**
   * The first n characters of the code of t, least-significant 6 bits first:
   * the string the loop of encoded_time has built after n rounds.
   */
  function TimeDigits(t: nat, n: nat): (s: string)
    ensures |s| == n
    ensures Fallback !in s
    decreases n
  {
    if n == 0 then [] else [Encode64(t % 64)] + TimeDigits(t / 64, n - 1)
  }

  /**
   * decode_time: the value of a code, least-significant character first; it raises
   * on the first character, from the left, that is not in the alphabet.
   */
  function TimeValue(s: string): (r: Result<nat>)
    ensures r.Success? ==> r.value < Pow64(|s|)
  {
    if s == [] then Success(0)
    else
      match Decode64(s[0])
      case Failure(e) => Failure(e)
      case Success(d) =>
        match TimeValue(s[1..])
        case Failure(e) => Failure(e)
        case Success(v) => Success(d + 64 * v)
  }

  /** A code decodes exactly when every one of its characters is in the alphabet. */
  lemma {:induction false} TimeValueDefined(s: string)
    ensures TimeValue(s).Success? <==> forall k :: 0 <= k < |s| ==> Decode64(s[k]).Success?
  {
    if s != [] {
      TimeValueDefined(s[1..]);
      assert forall k :: 1 <= k < |s| ==> s[k] == s[1..][k - 1];
    }
  }

  /** A failed decoding reports the leftmost character outside the alphabet. */
  lemma {:induction false} TimeValueFirstBad(s: string)
    requires TimeValue(s).Failure?
    ensures exists k :: 0 <= k < |s| && Decode64(s[k]) == TimeValue(s)
                     && forall j :: 0 <= j < k ==> Decode64(s[j]).Success?
  {
    if Decode64(s[0]).Failure? {
      assert Decode64(s[0]) == TimeValue(s);
    } else {
      TimeValueFirstBad(s[1..]);
      var k :| 0 <= k < |s[1..]| && Decode64(s[1..][k]) == TimeValue(s[1..])
             && forall j :: 0 <= j < k ==> Decode64(s[1..][j]).Success?;
      assert Decode64(s[k + 1]) == TimeValue(s);
      assert forall j :: 1 <= j < k + 1 ==> s[j] == s[1..][j - 1];
    }
  }

  /** t mod (64 * m) split into its lowest base-64 digit and the rest. */
  lemma ModSplit(t: nat, m: nat)
    requires m >= 1
    ensures t % 64 + 64 * ((t / 64) % m) == t % (64 * m)
  {
    var q, r := t / 64, t % 64;
    var a, b := q / m, q % m;
    assert t == 64 * q + r;
    assert q == m * a + b;
    assert 64 * q == 64 * (m * a) + 64 * b;
    assert 64 * (m * a) == (64 * m) * a;
    assert b <= m - 1;
    assert 64 * b <= 64 * (m - 1) == 64 * m - 64;
    ModUnique(t, 64 * m, a, 64 * b + r);
  }

  /** The quotient and remainder are the only ones with t == d * a + x and 0 <= x < d. */
  lemma ModUnique(t: nat, d: nat, a: nat, x: nat)
    requires d > 0 && x < d && t == d * a + x
    ensures t % d == x
  {
    var q, y := t / d, t % d;
    assert t == d * q + y;
    if q > a {
      MulAtLeast(d, q - a);
    } else if q < a {
      MulAtLeast(d, a - q);
    }
  }

  lemma {:induction false} MulAtLeast(d: nat, k: nat)
    requires k >= 1
    ensures d * k >= d
  {
    if k > 1 {
      MulAtLeast(d, k - 1);
      assert d * k == d * (k - 1) + d;
    }
  }

  /** Decoding n encoded digits gives back t modulo 64^n. */
  lemma {:induction false} TimeDigitsValue(t: nat, n: nat)
    ensures TimeValue(TimeDigits(t, n)) == Success(t % Pow64(n))
  {
    if n > 0 {
      var s := TimeDigits(t, n);
      assert s[0] == Encode64(t % 64) && s[1..] == TimeDigits(t / 64, n - 1);
      Decode64Encode64(t % 64);
      TimeDigitsValue(t / 64, n - 1);
      ModSplit(t, Pow64(n - 1));
    }
  }

  /** The heartbeat code is 6 characters and decodes to the timestamp modulo 2^36. */
  lemma TimeCodeRoundTrip(t: nat)
    ensures |TimeDigits(t, TimeWidth)| == 6
    ensures TimeValue(TimeDigits(t, TimeWidth)) == Success(t % TimeSpan)
  {
    TimeDigitsValue(t, TimeWidth);
    assert Pow64(6) == TimeSpan;
  }

  /** One more round of encoded_time: the next digit moves from the code of the rest to the output. */
  lemma TimeDigitsStep(s: string, u: nat, n: nat)
    requires n > 0
    ensures s + TimeDigits(u, n) == (s + [Encode64(u % 64)]) + TimeDigits(u / 64, n - 1)
  {
  }

  /** encoded_time, with the wall-clock reading t passed in. */
  method EncodedTime(t: nat) returns (s: string)
    ensures s == TimeDigits(t, TimeWidth)
  {
    s := "";
    var u := t;
    for i := 0 to TimeWidth
      invariant s + TimeDigits(u, TimeWidth - i) == TimeDigits(t, TimeWidth)
    {
      TimeDigitsStep(s, u, TimeWidth - i);
      s := s + [Encode64(u % 64)];
      u := u / 64;
    }
  }

  /** A digit value moved up by i base-64 places: d << (i * 6). */
  function Place(d: nat, i: nat): nat
  {
    d * Pow64(i)
  }

  /** A partial decoding t of the first i characters, combined with the value of the rest. */
  function Shifted(t: nat, i: nat, rest: Result<nat>): Result<nat>
  {
    match rest
    case Failure(e) => Failure(e)
    case Success(v) => Success(t + Pow64(i) * v)
  }

  /** TimeValue of a suffix, unfolded by one character. */
  lemma TimeValueAt(s: string, i: nat)
    requires i < |s|
    ensures TimeValue(s[i..]) ==
      match Decode64(s[i])
      case Failure(e) => Failure(e)
      case Success(d) => (match TimeValue(s[i + 1..]) case Failure(e) => Failure(e) case Success(v) => Success(d + 64 * v))
  {
    assert s[i..][0] == s[i] && s[i..][1..] == s[i + 1..];
  }

  /** Moving one decoded digit d from the rest into the partial value. */
  lemma ShiftedStep(t: nat, i: nat, d: nat, rest: Result<nat>)
    ensures Shifted(t, i, match rest case Failure(e) => Failure(e) case Success(v) => Success(d + 64 * v))
         == Shifted(t + d * Pow64(i), i + 1, rest)
  {
    if rest.Success? {
      var p, v := Pow64(i), rest.value;
      assert Pow64(i + 1) == 64 * p;
      assert p * (d + 64 * v) == d * p + (64 * p) * v;
    }
  }

  /** One round of the decode_time loop: the partial value absorbs the digit at i, or the decoding fails there. */
  lemma DecodeStep(s: string, i: nat, t: nat)
    requires i < |s|
    ensures Decode64(s[i]).Failure? ==> Shifted(t, i, TimeValue(s[i..])) == Decode64(s[i])
    ensures Decode64(s[i]).Success? ==>
      Shifted(t, i, TimeValue(s[i..])) == Shifted(t + Place(Decode64(s[i]).value, i), i + 1, TimeValue(s[i + 1..]))
  {
    TimeValueAt(s, i);
    if Decode64(s[i]).Success? {
      ShiftedStep(t, i, Decode64(s[i]).value, TimeValue(s[i + 1..]));
    }
  }

  /**
   * decode_time.  The source ORs each value shifted by 6*i into t; the bits below
   * 6*i are the only ones already set, so the OR is the sum written here.
   */
  method DecodeTime(s: string) returns (r: Result<nat>)
    ensures r == TimeValue(s)
  {
    var t: nat := 0;
    var i := 0;
    while i < |s|
      invariant 0 <= i <= |s|
      invariant TimeValue(s) == Shifted(t, i, TimeValue(s[i..]))
    {
      DecodeStep(s, i, t);
      var d := Decode64(s[i]);
      if d.Failure? {
        return Failure(d.error);
      }
      t := t + Place(d.value, i);
      i := i + 1;
    }
    assert s[i..] == [];
    r := Success(t);
  }
}
