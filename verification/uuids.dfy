/**
 * Identifiers. Every record of the system is keyed by a 128-bit UUID; its
 * text form (`str(uuid)` in Python) is 32 lower-case hex digits grouped
 * 8-4-4-4-12 by hyphens, and `UUID(text)` reads it back. Token subjects travel
 * in this text form, so the round trip below is what lets a token name a user.
 */
module Uuids {
  import opened Wrappers

  /** 16^k */
  function Pow16(k: nat): (r: nat)
    ensures r >= 1
  {
    if k == 0 then 1 else 16 * Pow16(k - 1)
  }

  type Uuid = n: nat | n < Pow16(32)

  const HexAlphabet := "0123456789abcdef"

  function HexDigit(d: nat): char
    requires d < 16
  {
    HexAlphabet[d]
  }

  /** The value of one hex digit, either case, as `int(..., 16)` reads it. */
  function DigitValue(c: char): (r: Option<nat>)
    ensures r.Some? ==> r.value < 16
  {
    if '0' <= c <= '9' then Some(c as nat - '0' as nat)
    else if 'a' <= c <= 'f' then Some(c as nat - 'a' as nat + 10)
    else if 'A' <= c <= 'F' then Some(c as nat - 'A' as nat + 10)
    else None
  }

  lemma {:induction false} DigitValueOfHexDigit(d: nat)
    requires d < 16
    ensures DigitValue(HexDigit(d)) == Some(d)
    ensures HexDigit(d) != '-'
  {
  }

  /** `n` written with exactly `width` lower-case hex digits, most significant first. */
  function Hex(n: nat, width: nat): (s: string)
    ensures |s| == width
  {
    if width == 0 then "" else Hex(n / 16, width - 1) + [HexDigit(n % 16)]
  }

  /** The number a string of hex digits denotes, or None if one is not a hex digit. */
  function HexValue(s: string): (r: Option<nat>)
    ensures r.Some? ==> r.value < Pow16(|s|)
  {
    if s == [] then Some(0)
    else
      var v := HexValue(s[..|s| - 1]);
      var d := DigitValue(s[|s| - 1]);
      if v.None? || d.None? then None
      else
        assert v.value * 16 + d.value < Pow16(|s|) by {
          assert v.value <= Pow16(|s| - 1) - 1;
        }
        Some(v.value * 16 + d.value)
  }

  /** Reading one more digit: the value so far times sixteen plus the digit. */
  lemma HexValueSnoc(s: string, c: char)
    ensures HexValue(s + [c]) ==
      if HexValue(s).Some? && DigitValue(c).Some? then Some(HexValue(s).value * 16 + DigitValue(c).value) else None
  {
    assert (s + [c])[..|s|] == s;
  }

  lemma {:induction false} HexRoundTrip(n: nat, width: nat)
    requires n < Pow16(width)
    ensures HexValue(Hex(n, width)) == Some(n)
  {
    if width > 0 {
      var q, d := n / 16, n % 16;
      assert n == q * 16 + d;
      assert q < Pow16(width - 1) by {
        assert n < 16 * Pow16(width - 1);
      }
      HexRoundTrip(q, width - 1);
      DigitValueOfHexDigit(d);
      HexValueSnoc(Hex(q, width - 1), HexDigit(d));
    }
  }

  /** The string with every hyphen taken out. */
  function RemoveDashes(s: string): (r: string)
    ensures '-' !in r
    ensures |r| <= |s|
  {
    if s == [] then ""
    else if s[0] == '-' then RemoveDashes(s[1..])
    else [s[0]] + RemoveDashes(s[1..])
  }

  lemma {:induction false} RemoveDashesAppend(a: string, b: string)
    ensures RemoveDashes(a + b) == RemoveDashes(a) + RemoveDashes(b)
  {
    if a == [] {
      assert a + b == b;
    } else {
      assert (a + b)[1..] == a[1..] + b;
      RemoveDashesAppend(a[1..], b);
    }
  }

  /** `a` and `b` joined by one hyphen. */
  function Dash(a: string, b: string): string {
    a + "-" + b
  }

  lemma RemoveDashesOfDash(a: string, b: string)
    requires '-' !in a
    ensures RemoveDashes(Dash(a, b)) == a + RemoveDashes(b)
  {
    assert Dash(a, b) == a + ("-" + b);
    RemoveDashesAppend(a, "-" + b);
    RemoveDashesOfDashFree(a);
    assert ("-" + b)[1..] == b;
  }

  lemma {:induction false} RemoveDashesOfDashFree(s: string)
    requires '-' !in s
    ensures RemoveDashes(s) == s
  {
    if s != [] {
      RemoveDashesOfDashFree(s[1..]);
    }
  }

  lemma {:induction false} HexHasNoDash(n: nat, width: nat)
    ensures '-' !in Hex(n, width)
  {
    if width > 0 {
      HexHasNoDash(n / 16, width - 1);
      DigitValueOfHexDigit(n % 16);
    }
  }

  /** `str(uuid)`: the canonical 36-character text form. */
  function Format(u: Uuid): (s: string)
    ensures |s| == 36
  {
    var h := Hex(u, 32);
    Dash(h[..8], Dash(h[8..12], Dash(h[12..16], Dash(h[16..20], h[20..]))))
  }

  /**
   * `UUID(text)`: hyphens are dropped, then exactly 32 hex digits must
   * remain; anything else is the ValueError case (None).
   */
  function Parse(s: string): (r: Option<Uuid>)
    ensures r.Some? ==> |RemoveDashes(s)| == 32
  {
    var h := RemoveDashes(s);
    if |h| != 32 then None
    else
      match HexValue(h)
      case Some(n) => Some(n)
      case None => None
  }

  lemma ParseFormat(u: Uuid)
    ensures Parse(Format(u)) == Some(u)
  {
    var h := Hex(u, 32);
    HexHasNoDash(u, 32);
    var p0, p1, p2, p3, p4 := h[..8], h[8..12], h[12..16], h[16..20], h[20..];
    assert '-' !in p0 && '-' !in p1 && '-' !in p2 && '-' !in p3 && '-' !in p4 by {
      assert forall c :: c in p0 || c in p1 || c in p2 || c in p3 || c in p4 ==> c in h;
    }
    RemoveDashesOfDash(p3, p4);
    RemoveDashesOfDashFree(p4);
    RemoveDashesOfDash(p2, Dash(p3, p4));
    RemoveDashesOfDash(p1, Dash(p2, Dash(p3, p4)));
    RemoveDashesOfDash(p0, Dash(p1, Dash(p2, Dash(p3, p4))));
    assert p0 + (p1 + (p2 + (p3 + p4))) == h;
    HexRoundTrip(u, 32);
  }

  /** Distinct identifiers have distinct text forms. */
  lemma FormatInjective(u: Uuid, v: Uuid)
    requires Format(u) == Format(v)
    ensures u == v
  {
    ParseFormat(u);
    ParseFormat(v);
  }
}
