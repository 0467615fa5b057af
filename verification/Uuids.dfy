/** UUIDs as Python spells and parses them, and the asset paths built from them. */
module Uuids {
  import opened Common

  predicate IsHexOrDash(c: char) {
    '0' <= c <= '9' || 'a' <= c <= 'f' || 'A' <= c <= 'F' || c == '-'
  }

  /** What may stand for an id in a path: 36 hexadecimal digits or dashes, in whatever arrangement. */
  predicate IsIdText(s: string) {
    |s| == 36 && forall i :: 0 <= i < |s| ==> '0' <= s[i] <= '9' || 'a' <= s[i] <= 'f' || 'A' <= s[i] <= 'F' || s[i] == '-'
  }

  predicate IsLowerHex(c: char) {
    '0' <= c <= '9' || 'a' <= c <= 'f'
  }

  /** A UUID: its 32 hexadecimal digits, in lower case. */
  type Uuid = s: string | |s| == 32 && forall i :: 0 <= i < |s| ==> IsLowerHex(s[i])
    witness seq(32, i => '0')

  /** `str(uuid)` */
  function Format(u: Uuid): (s: string)
    ensures |s| == 36 && forall i :: 0 <= i < |s| ==> IsHexOrDash(s[i])
  {
    u[..8] + "-" + u[8..12] + "-" + u[12..16] + "-" + u[16..20] + "-" + u[20..]
  }

  function NoDashes(s: string): string {
    if s == [] then [] else if s[0] == '-' then NoDashes(s[1..]) else [s[0]] + NoDashes(s[1..])
  }

  lemma {:induction false} OnlyDigitsRemain(s: string)
    requires forall i :: 0 <= i < |s| ==> IsHexOrDash(s[i])
    ensures forall i :: 0 <= i < |NoDashes(s)| ==> IsHexOrDash(NoDashes(s)[i]) && NoDashes(s)[i] != '-'
  {
    if s != [] {
      OnlyDigitsRemain(s[1..]);
    }
  }

  /** `uuid.UUID(s)` on a string of hexadecimal digits and dashes; `None` is its ValueError. */
  function Parse(s: string): Option<Uuid>
    requires forall i :: 0 <= i < |s| ==> IsHexOrDash(s[i])
  {
    OnlyDigitsRemain(s);
    var digits := Lower(NoDashes(s));
    if |digits| == 32 then Some(digits) else None
  }

  /** A run of digits is kept; the dash after it is dropped. */
  lemma {:induction false} DigitsThenDash(digits: string, rest: string)
    requires forall i :: 0 <= i < |digits| ==> IsLowerHex(digits[i])
    ensures NoDashes(digits + "-" + rest) == digits + NoDashes(rest)
  {
    var s := digits + "-" + rest;
    if digits == [] {
      assert s[1..] == rest;
    } else {
      assert s[1..] == digits[1..] + "-" + rest;
      DigitsThenDash(digits[1..], rest);
    }
  }

  lemma {:induction false} OnlyDigits(s: string)
    requires forall i :: 0 <= i < |s| ==> IsLowerHex(s[i])
    ensures NoDashes(s) == s && Lower(s) == s
  {
    if s != [] {
      OnlyDigits(s[1..]);
    }
  }

  lemma FormatDropsToDigits(u: Uuid)
    ensures NoDashes(Format(u)) == u
  {
    var a, b, c, d, e := u[..8], u[8..12], u[12..16], u[16..20], u[20..];
    var rest3 := d + "-" + e;
    var rest2 := c + "-" + rest3;
    var rest1 := b + "-" + rest2;
    assert Format(u) == a + "-" + rest1;
    OnlyDigits(e);
    DigitsThenDash(d, e);
    DigitsThenDash(c, rest3);
    DigitsThenDash(b, rest2);
    DigitsThenDash(a, rest1);
    assert a + (b + (c + (d + e))) == u;
  }

  lemma FormatThenParse(u: Uuid)
    ensures Parse(Format(u)) == Some(u)
  {
    FormatDropsToDigits(u);
    OnlyDigits(u);
  }

  // --- Asset paths ---------------------------------------------------------------

  const PREFIX := "/api/modules/"
  const MIDDLE := "/assets/"

  /** `asset_url(module_id, asset_id)` */
  function AssetUrl(m: Uuid, a: Uuid): (s: string)
    ensures IsAssetPath(s) && AssetPart(s) == Format(a)
  {
    var s := PREFIX + Format(m) + MIDDLE + Format(a);
    assert s[..13] == PREFIX;
    assert s[13..49] == Format(m);
    assert s[49..57] == MIDDLE;
    assert s[57..] == Format(a);
    s
  }

  /** `^/api/modules/[0-9a-fA-F-]{36}/assets/[0-9a-fA-F-]{36}$` */
  predicate IsAssetPath(s: string) {
    && |s| == 93
    && s[..13] == PREFIX
    && (forall i :: 13 <= i < 49 ==> IsHexOrDash(s[i]))
    && s[49..57] == MIDDLE
    && (forall i :: 57 <= i < 93 ==> IsHexOrDash(s[i]))
  }

  function AssetPart(s: string): (r: string)
    requires IsAssetPath(s)
    ensures |r| == 36 && forall i :: 0 <= i < |r| ==> IsHexOrDash(r[i])
  {
    s[57..]
  }

  lemma AssetUrlNames(m: Uuid, a: Uuid)
    ensures Parse(AssetPart(AssetUrl(m, a))) == Some(a)
  {
    FormatThenParse(a);
  }

  lemma AssetUrlIsInjective(m: Uuid, a: Uuid, m': Uuid, a': Uuid)
    requires AssetUrl(m, a) == AssetUrl(m', a')
    ensures m == m' && a == a'
  {
    FormatThenParse(a);
    FormatThenParse(a');
    FormatThenParse(m);
    FormatThenParse(m');
    assert AssetUrl(m, a)[13..49] == Format(m);
    assert AssetUrl(m', a')[13..49] == Format(m');
  }
}
