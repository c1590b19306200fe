/**
 * UUID text as `Parser.is_valid_uuid` sees it: `uuid.UUID(s)` parses the
 * text and `str(...)` prints the canonical 8-4-4-4-12 lower-case form.
 */
module Uuids {
  import opened Wrappers

  predicate IsLowerHex(c: char) { '0' <= c <= '9' || 'a' <= c <= 'f' }

  predicate IsHex(c: char) { IsLowerHex(c) || 'A' <= c <= 'F' }

  /** Positions of the four dashes in the canonical form. */
  predicate IsDashAt(i: int) { i == 8 || i == 13 || i == 18 || i == 23 }

  /** The canonical text of a UUID, as `str(uuid.UUID)` prints it. */
  predicate IsCanonical(s: string) {
    |s| == 36 &&
    forall i :: 0 <= i < |s| ==> if IsDashAt(i) then s[i] == '-' else IsLowerHex(s[i])
  }

  predicate IsBrace(c: char) { c == '{' || c == '}' }

  /** `s.strip('{}')`: drops braces from both ends. */
  function StripBraces(s: string): string
    decreases |s|
  {
    if |s| > 0 && IsBrace(s[0]) then StripBraces(s[1..])
    else if |s| > 0 && IsBrace(s[|s| - 1]) then StripBraces(s[..|s| - 1])
    else s
  }

  /** `s.replace('-', '')`. */
  function RemoveDashes(s: string): (r: string)
    ensures |r| <= |s|
  {
    if s == [] then [] else (if s[0] == '-' then "" else [s[0]]) + RemoveDashes(s[1..])
  }

  function ToLower(c: char): char {
    if 'A' <= c <= 'F' then (c as int - 'A' as int + 'a' as int) as char else c
  }

  function LowerAll(s: string): (r: string)
    ensures |r| == |s|
  {
    seq(|s|, i requires 0 <= i < |s| => ToLower(s[i]))
  }

  /**
   * `uuid.UUID(s)`: the 32 hex digits of the value, or `None` where the
   * constructor raises `ValueError`. The `urn:`/`uuid:` prefixes and the
   * extra spellings `int(_, 16)` tolerates are not modelled.
   */
  function Parse(s: string): (r: Option<string>)
    ensures r.Some? ==> |r.value| == 32 && forall i :: 0 <= i < 32 ==> IsLowerHex(r.value[i])
  {
    var h := RemoveDashes(StripBraces(s));
    if |h| == 32 && forall i :: 0 <= i < 32 ==> IsHex(h[i]) then Some(LowerAll(h)) else None
  }

  /** `str(uuid)`: the digits in 8-4-4-4-12 groups. */
  function Format(h: string): (r: string)
    requires |h| == 32
    ensures |r| == 36
  {
    h[..8] + "-" + h[8..12] + "-" + h[12..16] + "-" + h[16..20] + "-" + h[20..]
  }

  /** `Parser.is_valid_uuid`: the text parses and equals its canonical form. */
  predicate IsValidUuid(s: string)
    ensures IsValidUuid(s) ==> |s| == 36
  {
    match Parse(s)
    case None => false
    case Some(h) => Format(h) == s
  }

  lemma {:induction false} RemoveDashesConcat(a: string, b: string)
    ensures RemoveDashes(a + b) == RemoveDashes(a) + RemoveDashes(b)
  {
    if a == [] {
      assert a + b == b;
    } else {
      assert (a + b)[1..] == a[1..] + b;
      RemoveDashesConcat(a[1..], b);
    }
  }

  lemma {:induction false} RemoveDashesNoDash(a: string)
    requires forall i :: 0 <= i < |a| ==> a[i] != '-'
    ensures RemoveDashes(a) == a
  {
    if a != [] {
      RemoveDashesNoDash(a[1..]);
    }
  }

  /** Every formatted UUID is canonical. */
  lemma FormatIsCanonical(h: string)
    requires |h| == 32 && forall i :: 0 <= i < 32 ==> IsLowerHex(h[i])
    ensures IsCanonical(Format(h))
  {
    var f := Format(h);
    forall i | 0 <= i < 36
      ensures if IsDashAt(i) then f[i] == '-' else IsLowerHex(f[i])
    {
      if i < 8 { assert f[i] == h[i]; }
      else if i == 8 { }
      else if i < 13 { assert f[i] == h[i - 1]; }
      else if i == 13 { }
      else if i < 18 { assert f[i] == h[i - 2]; }
      else if i == 18 { }
      else if i < 23 { assert f[i] == h[i - 3]; }
      else if i == 23 { }
      else { assert f[i] == h[i - 4]; }
    }
  }

  /** The digits `uuid.UUID` reads off canonical text. */
  lemma CanonicalUnbraced(s: string)
    requires IsCanonical(s)
    ensures StripBraces(s) == s
  {
    assert IsLowerHex(s[0]) && IsLowerHex(s[35]);
  }

  lemma CanonicalGroup(s: string, lo: int, hi: int)
    requires IsCanonical(s) && 0 <= lo <= hi <= 36
    requires forall i :: lo <= i < hi ==> !IsDashAt(i)
    ensures RemoveDashes(s[lo..hi]) == s[lo..hi]
  {
    var g := s[lo..hi];
    forall i | 0 <= i < |g| ensures g[i] != '-' {
      assert g[i] == s[lo + i] && IsLowerHex(s[lo + i]);
    }
    RemoveDashesNoDash(g);
  }

  lemma RemoveDashesJoin(a: string, b: string)
    requires RemoveDashes(b) == b
    ensures RemoveDashes(a + "-" + b) == RemoveDashes(a) + b
  {
    assert RemoveDashes("-") == "";
    RemoveDashesConcat(a, "-");
    RemoveDashesConcat(a + "-", b);
  }

  lemma RemoveDashesGroups(a: string, b: string, c: string, d: string, e: string)
    requires RemoveDashes(a) == a && RemoveDashes(b) == b && RemoveDashes(c) == c
    requires RemoveDashes(d) == d && RemoveDashes(e) == e
    ensures RemoveDashes(a + "-" + b + "-" + c + "-" + d + "-" + e) == a + b + c + d + e
  {
    RemoveDashesJoin(a, b);
    RemoveDashesJoin(a + "-" + b, c);
    RemoveDashesJoin(a + "-" + b + "-" + c, d);
    RemoveDashesJoin(a + "-" + b + "-" + c + "-" + d, e);
  }

  lemma CanonicalSplit(s: string)
    requires IsCanonical(s)
    ensures s == s[..8] + "-" + s[9..13] + "-" + s[14..18] + "-" + s[19..23] + "-" + s[24..]
  {
    var t := s[..8] + "-" + s[9..13] + "-" + s[14..18] + "-" + s[19..23] + "-" + s[24..];
    assert |t| == 36;
    forall i | 0 <= i < 36 ensures t[i] == s[i] {
      if IsDashAt(i) { assert s[i] == '-'; }
    }
  }

  /** The digits `uuid.UUID` reads off canonical text. */
  lemma CanonicalDigits(s: string)
    requires IsCanonical(s)
    ensures RemoveDashes(StripBraces(s)) == s[..8] + s[9..13] + s[14..18] + s[19..23] + s[24..]
  {
    CanonicalUnbraced(s);
    CanonicalGroup(s, 0, 8);
    CanonicalGroup(s, 9, 13);
    CanonicalGroup(s, 14, 18);
    CanonicalGroup(s, 19, 23);
    CanonicalGroup(s, 24, 36);
    assert s[0..8] == s[..8] && s[24..36] == s[24..];
    CanonicalSplit(s);
    RemoveDashesGroups(s[..8], s[9..13], s[14..18], s[19..23], s[24..]);
  }

  /** `uuid.UUID` accepts canonical text, and its digits are already lower-case. */
  lemma CanonicalParses(s: string)
    requires IsCanonical(s)
    ensures Parse(s) == Some(RemoveDashes(StripBraces(s)))
  {
    CanonicalDigits(s);
    var raw := RemoveDashes(StripBraces(s));
    assert |raw| == 32;
    forall i | 0 <= i < 32 ensures IsLowerHex(raw[i]) {
      if i < 8 { assert raw[i] == s[i]; }
      else if i < 12 { assert raw[i] == s[i + 1]; }
      else if i < 16 { assert raw[i] == s[i + 2]; }
      else if i < 20 { assert raw[i] == s[i + 3]; }
      else { assert raw[i] == s[i + 4]; }
    }
    assert LowerAll(raw) == raw;
  }

  /** Printing the digits of canonical text gives the text back. */
  lemma CanonicalFormats(s: string)
    requires IsCanonical(s)
    ensures |RemoveDashes(StripBraces(s))| == 32 && Format(RemoveDashes(StripBraces(s))) == s
  {
    CanonicalDigits(s);
    var a, b, c, d, e := s[..8], s[9..13], s[14..18], s[19..23], s[24..];
    var raw := a + b + c + d + e;
    assert raw[..8] == a && raw[8..12] == b && raw[12..16] == c && raw[16..20] == d && raw[20..] == e;
    CanonicalSplit(s);
  }

  /** `is_valid_uuid(s)` holds exactly when `s` is canonical UUID text. */
  lemma ValidIffCanonical(s: string)
    ensures IsValidUuid(s) <==> IsCanonical(s)
  {
    if IsCanonical(s) {
      CanonicalParses(s);
      CanonicalFormats(s);
    }
    if IsValidUuid(s) {
      FormatIsCanonical(Parse(s).value);
    }
  }
}
