/**
 * A symbolic, space-free text serialisation of naturals and strings.
 *
 * It stands in for the base64url segments of a compact JSON Web Token and
 * for the text of an argon2 hash: what the rest of the model needs from it
 * is that decoding undoes encoding, that decoding accepts only canonical
 * encodings, and that an encoding never holds a space.
 *
 * A natural is written in binary, least significant bit first, with '0' and
 * '1', and closed by 'z'; zero is "z" alone and no encoding ends in "0z".
 * A string is the encodings of its characters' code points, closed by 'y'.
 */
module Codec {
  import opened Common

  /** The characters an encoding may contain. */
  predicate IsCodeChar(c: char) {
    c in {'0', '1', 'y', 'z', 'N', 'S', 'T', 'F'}
  }

  predicate IsCodeText(s: string) {
    forall i :: 0 <= i < |s| ==> IsCodeChar(s[i])
  }

  lemma CodeTextConcat(a: string, b: string)
    requires IsCodeText(a) && IsCodeText(b)
    ensures IsCodeText(a + b)
  {
    forall i | 0 <= i < |a + b| ensures IsCodeChar((a + b)[i]) {
      if i < |a| { assert (a + b)[i] == a[i]; } else { assert (a + b)[i] == b[i - |a|]; }
    }
  }

  function EncodeNat(n: nat): (s: string)
    ensures |s| > 0
    decreases n
  {
    if n == 0 then "z" else [if n % 2 == 0 then '0' else '1'] + EncodeNat(n / 2)
  }

  /** Reads one natural from the front of `s`; the rest is returned with it. */
  function DecodeNat(s: string): (r: Option<(nat, string)>)
    ensures r.Some? ==> |r.value.1| < |s|
    decreases |s|
  {
    if |s| == 0 then None
    else if s[0] == 'z' then Some((0, s[1..]))
    else if s[0] == '0' || s[0] == '1' then
      match DecodeNat(s[1..])
      case None => None
      case Some(p) =>
        if s[0] == '0' && p.0 == 0 then None
        else Some(((if s[0] == '1' then 1 else 0) + 2 * p.0, p.1))
    else None
  }

  lemma {:induction false} EncodeNatText(n: nat)
    ensures IsCodeText(EncodeNat(n))
    decreases n
  {
    if n != 0 {
      EncodeNatText(n / 2);
      CodeTextConcat([if n % 2 == 0 then '0' else '1'], EncodeNat(n / 2));
    }
  }

  lemma {:induction false} DecodeEncodeNat(n: nat, rest: string)
    ensures DecodeNat(EncodeNat(n) + rest) == Some((n, rest))
    decreases n
  {
    var s := EncodeNat(n) + rest;
    if n == 0 {
      assert s[1..] == rest;
    } else {
      assert s[1..] == EncodeNat(n / 2) + rest;
      DecodeEncodeNat(n / 2, rest);
    }
  }

  lemma {:induction false} DecodeNatSound(s: string)
    requires DecodeNat(s).Some?
    ensures s == EncodeNat(DecodeNat(s).value.0) + DecodeNat(s).value.1
    decreases |s|
  {
    if s[0] != 'z' {
      DecodeNatSound(s[1..]);
      var n := DecodeNat(s).value.0;
      var m := DecodeNat(s[1..]).value.0;
      assert n > 0 && n / 2 == m;
      assert s == [s[0]] + s[1..];
    }
  }

  /** The code point of every character is a natural that converts back. */
  predicate IsScalar(n: nat) {
    n < 0xD800 || 0xE000 <= n < 0x11_0000
  }

  function EncodeStr(s: string): (e: string)
    ensures |e| > 0
  {
    if s == [] then "y" else EncodeNat(s[0] as int) + EncodeStr(s[1..])
  }

  function DecodeStr(s: string): (r: Option<(string, string)>)
    ensures r.Some? ==> |r.value.1| < |s|
    decreases |s|
  {
    if |s| == 0 then None
    else if s[0] == 'y' then Some(([], s[1..]))
    else
      match DecodeNat(s)
      case None => None
      case Some(p) =>
        if !IsScalar(p.0) then None
        else
          match DecodeStr(p.1)
          case None => None
          case Some(q) => Some(([p.0 as char] + q.0, q.1))
  }

  lemma {:induction false} EncodeStrText(s: string)
    ensures IsCodeText(EncodeStr(s))
  {
    if s != [] {
      EncodeNatText(s[0] as int);
      EncodeStrText(s[1..]);
      CodeTextConcat(EncodeNat(s[0] as int), EncodeStr(s[1..]));
    }
  }

  lemma {:induction false} DecodeEncodeStr(s: string, rest: string)
    ensures DecodeStr(EncodeStr(s) + rest) == Some((s, rest))
  {
    var e := EncodeStr(s) + rest;
    if s == [] {
      assert e[1..] == rest;
    } else {
      var tail := EncodeStr(s[1..]) + rest;
      assert e == EncodeNat(s[0] as int) + tail;
      DecodeEncodeNat(s[0] as int, tail);
      assert EncodeNat(s[0] as int)[0] != 'y';
      DecodeEncodeStr(s[1..], rest);
      assert [s[0]] + s[1..] == s;
    }
  }

  lemma {:induction false} DecodeStrSound(s: string)
    requires DecodeStr(s).Some?
    ensures s == EncodeStr(DecodeStr(s).value.0) + DecodeStr(s).value.1
    decreases |s|
  {
    if s[0] != 'y' {
      var p := DecodeNat(s).value;
      DecodeNatSound(s);
      DecodeStrSound(p.1);
      var c := p.0 as char;
      var q := DecodeStr(p.1).value;
      assert DecodeStr(s).value.0 == [c] + q.0;
      assert ([c] + q.0)[1..] == q.0;
    }
  }
}
