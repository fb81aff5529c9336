/** Percent-encoding of a path segment (section 2.1 of RFC 3986), as it carries display names. */
module Percent {
  import opened Text

  /** Characters a path segment keeps as they are. */
  predicate IsKept(c: Byte) {
    || 'a' <= c <= 'z' || 'A' <= c <= 'Z' || '0' <= c <= '9'
    || c == '-' || c == '_' || c == '.' || c == '~'
    || c == '$' || c == '&' || c == '+' || c == ':' || c == '=' || c == '@'
  }

  function HexDigit(v: nat): Byte
    requires v < 16
  {
    if v < 10 then (v + '0' as int) as char else (v - 10 + 'A' as int) as char
  }

  /** The value of a hexadecimal digit of either case, -1 for any other character. */
  function HexValue(c: Byte): (v: int)
    ensures -1 <= v < 16
  {
    if '0' <= c <= '9' then c as int - '0' as int
    else if 'a' <= c <= 'f' then c as int - 'a' as int + 10
    else if 'A' <= c <= 'F' then c as int - 'A' as int + 10
    else -1
  }

  /** url.PathEscape. */
  function Escape(s: Bytes): Bytes
    requires IsBytes(s)
  {
    if s == [] then []
    else
      var n := s[0] as int;
      (if IsKept(s[0]) then [s[0]] else ['%', HexDigit(n / 16), HexDigit(n % 16)]) + Escape(s[1..])
  }

  /** url.PathUnescape: fails on a percent sign without two hexadecimal digits behind it. */
  function Unescape(s: Bytes): Option<Bytes>
    decreases |s|
  {
    if s == [] then Some([])
    else if s[0] != '%' then
      var rest := Unescape(s[1..]);
      if rest.None? then None else Some([s[0]] + rest.value)
    else if |s| < 3 || HexValue(s[1]) < 0 || HexValue(s[2]) < 0 then None
    else
      var rest := Unescape(s[3..]);
      if rest.None? then None else Some([(HexValue(s[1]) * 16 + HexValue(s[2])) as char] + rest.value)
  }

  lemma HexRoundTrip(v: nat)
    requires v < 16
    ensures HexValue(HexDigit(v)) == v && ' ' < HexDigit(v) < '\U{7f}'
  {
  }

  lemma UnescapeKept(c: Byte, rest: Bytes)
    requires c != '%' && Unescape(rest).Some?
    ensures Unescape([c] + rest) == Some([c] + Unescape(rest).value)
  {
    assert ([c] + rest)[1..] == rest;
  }

  lemma UnescapeHex(a: Byte, b: Byte, rest: Bytes)
    requires HexValue(a) >= 0 && HexValue(b) >= 0 && Unescape(rest).Some?
    ensures Unescape(['%', a, b] + rest) == Some([(HexValue(a) * 16 + HexValue(b)) as char] + Unescape(rest).value)
  {
    assert (['%', a, b] + rest)[3..] == rest;
  }

  lemma {:induction false} UnescapeEscape(s: Bytes)
    requires IsBytes(s)
    ensures Unescape(Escape(s)) == Some(s)
    decreases |s|
  {
    hide Unescape, HexDigit, HexValue;
    if s == [] {
      UnescapeNothing();
    } else {
      var n := s[0] as int;
      HexRoundTrip(n / 16);
      HexRoundTrip(n % 16);
      UnescapeEscape(s[1..]);
      if IsKept(s[0]) {
        UnescapeKept(s[0], Escape(s[1..]));
      } else {
        UnescapeHex(HexDigit(n / 16), HexDigit(n % 16), Escape(s[1..]));
      }
      assert s == [s[0]] + s[1..];
    }
  }

  lemma UnescapeNothing()
    ensures Unescape([]) == Some([])
  {
  }

  lemma {:induction false} EscapeIsGraphic(s: Bytes)
    requires IsBytes(s)
    ensures forall k :: 0 <= k < |Escape(s)| ==> ' ' < Escape(s)[k] < '\U{7f}'
    ensures s != [] ==> Escape(s) != []
  {
    hide HexDigit;
    if s != [] {
      HexRoundTrip(s[0] as int / 16);
      HexRoundTrip(s[0] as int % 16);
      EscapeIsGraphic(s[1..]);
    }
  }

  lemma UnescapeKeepsSomething(s: Bytes)
    requires s != [] && Unescape(s).Some?
    ensures Unescape(s).value != []
  {
  }

  /** A space, a slash and a letter with an accent, in upper-case hexadecimal. */
  lemma EscapesAreStandard()
    ensures Escape(" ") == "%20" && Escape("/") == "%2F" && Escape("\U{C3}\U{A9}") == "%C3%A9"
  {
    var accent: Bytes := "\U{C3}\U{A9}";
    assert Escape([]) == [] && accent[1..] == ['\U{A9}'] && accent[1..][1..] == [];
    assert Escape(" "[1..]) == [] && Escape("/"[1..]) == [];
    assert Escape(accent[1..]) == "%A9";
  }

  /** Letters, digits and ten marks stay as they are; everything else is escaped. */
  lemma KeptExactly(c: Byte)
    requires IsByte(c)
    ensures var plain := 'a' <= c <= 'z' || 'A' <= c <= 'Z' || '0' <= c <= '9';
            Escape([c]) == [c] <==> plain || c in "-_.~$&+:=@"
  {
    assert Escape([]) == [] && [c][1..] == [];
  }
}
