/** Base64 (sections 4 and 5 of RFC 4648) as the share links use it. */
module Base64 {
  import opened Text

  function EncodeChar(v: nat, url: bool): Byte
    requires v < 64
  {
    if v < 26 then (v + 'A' as int) as char
    else if v < 52 then (v - 26 + 'a' as int) as char
    else if v < 62 then (v - 52 + '0' as int) as char
    else if v == 62 then (if url then '-' else '+')
    else if url then '_' else '/'
  }

  /** The value of an alphabet character, -1 for any other. */
  function DecodeChar(c: Byte, url: bool): (v: int)
    ensures -1 <= v < 64
  {
    if 'A' <= c <= 'Z' then c as int - 'A' as int
    else if 'a' <= c <= 'z' then c as int - 'a' as int + 26
    else if '0' <= c <= '9' then c as int - '0' as int + 52
    else if c == (if url then '-' else '+') then 62
    else if c == (if url then '_' else '/') then 63
    else -1
  }

  lemma CharRoundTrip(v: nat, url: bool)
    requires v < 64
    ensures DecodeChar(EncodeChar(v, url), url) == v
    ensures EncodeChar(v, url) != '='
  {
  }

  /** Padded encoding, three bytes to four characters. */
  function Encode(b: Bytes, url: bool): Bytes
    requires IsBytes(b)
  {
    if b == [] then []
    else
      var x := b[0] as int;
      if |b| == 1 then [EncodeChar(x / 4, url), EncodeChar(x % 4 * 16, url), '=', '=']
      else
        var y := b[1] as int;
        if |b| == 2 then
          [EncodeChar(x / 4, url), EncodeChar(x % 4 * 16 + y / 16, url), EncodeChar(y % 16 * 4, url), '=']
        else
          var z := b[2] as int;
          [EncodeChar(x / 4, url), EncodeChar(x % 4 * 16 + y / 16, url),
           EncodeChar(y % 16 * 4 + z / 64, url), EncodeChar(z % 64, url)] + Encode(b[3..], url)
  }

  function ByteOf(n: nat): Byte
    requires n < 256
  {
    n as char
  }

  /** Padded decoding of text without line breaks; trailing bits of a short last quantum are ignored. */
  function DecodeQuanta(s: Bytes, url: bool): Option<Bytes> {
    if s == [] then Some([])
    else if |s| < 4 then None
    else
      var a, b, c, d := DecodeChar(s[0], url), DecodeChar(s[1], url), DecodeChar(s[2], url), DecodeChar(s[3], url);
      if a < 0 || b < 0 then None
      else if s[2] == '=' then
        if s[3] == '=' && |s| == 4 then Some([ByteOf(a * 4 + b / 16)]) else None
      else if c < 0 then None
      else if s[3] == '=' then
        if |s| == 4 then Some([ByteOf(a * 4 + b / 16), ByteOf(b % 16 * 16 + c / 4)]) else None
      else if d < 0 then None
      else
        var rest := DecodeQuanta(s[4..], url);
        if rest.None? then None
        else Some([ByteOf(a * 4 + b / 16), ByteOf(b % 16 * 16 + c / 4), ByteOf(c % 4 * 64 + d)] + rest.value)
  }

  /** The decoder skips carriage returns and line feeds wherever they stand. */
  function WithoutLineBreaks(s: Bytes): Bytes {
    if s == [] then []
    else (if s[0] == '\r' || s[0] == '\n' then [] else [s[0]]) + WithoutLineBreaks(s[1..])
  }

  function Decode(s: Bytes, url: bool): Option<Bytes> { DecodeQuanta(WithoutLineBreaks(s), url) }

  /** padBase64. */
  function Pad(s: Bytes): Bytes {
    if |s| % 4 == 0 then s else s + seq(4 - |s| % 4, _ => '=')
  }

  /** decodeBase64URL: trimmed and padded, the URL alphabet first and the standard one second. */
  function DecodeLenient(s: Bytes): Option<Bytes> {
    var p := Pad(TrimSpace(s));
    var b := Decode(p, true);
    if b.Some? then b else Decode(p, false)
  }

  // ---------------------------------------------------------------- decoding what was encoded

  predicate IsAlphabet(c: Byte, url: bool) { c == '=' || DecodeChar(c, url) >= 0 }

  lemma DecodeFullQuantum(x: nat, y: nat, z: nat, rest: Bytes, url: bool)
    requires x < 256 && y < 256 && z < 256 && DecodeQuanta(rest, url).Some?
    ensures DecodeQuanta([EncodeChar(x / 4, url), EncodeChar(x % 4 * 16 + y / 16, url),
                          EncodeChar(y % 16 * 4 + z / 64, url), EncodeChar(z % 64, url)] + rest, url)
         == Some([ByteOf(x), ByteOf(y), ByteOf(z)] + DecodeQuanta(rest, url).value)
  {
    var a, b, c, d := x / 4, x % 4 * 16 + y / 16, y % 16 * 4 + z / 64, z % 64;
    CharRoundTrip(a, url);
    CharRoundTrip(b, url);
    CharRoundTrip(c, url);
    CharRoundTrip(d, url);
    hide EncodeChar, DecodeChar;
    var s := [EncodeChar(a, url), EncodeChar(b, url), EncodeChar(c, url), EncodeChar(d, url)] + rest;
    assert s[4..] == rest;
    assert a * 4 + b / 16 == x && b % 16 * 16 + c / 4 == y && c % 4 * 64 + d == z;
  }

  lemma DecodeOneByte(x: nat, url: bool)
    requires x < 256
    ensures DecodeQuanta([EncodeChar(x / 4, url), EncodeChar(x % 4 * 16, url), '=', '='], url) == Some([ByteOf(x)])
  {
    CharRoundTrip(x / 4, url);
    CharRoundTrip(x % 4 * 16, url);
    hide EncodeChar, DecodeChar;
  }

  lemma DecodeTwoBytes(x: nat, y: nat, url: bool)
    requires x < 256 && y < 256
    ensures DecodeQuanta([EncodeChar(x / 4, url), EncodeChar(x % 4 * 16 + y / 16, url),
                          EncodeChar(y % 16 * 4, url), '='], url) == Some([ByteOf(x), ByteOf(y)])
  {
    var a, b, c := x / 4, x % 4 * 16 + y / 16, y % 16 * 4;
    CharRoundTrip(a, url);
    CharRoundTrip(b, url);
    CharRoundTrip(c, url);
    hide EncodeChar, DecodeChar;
    assert a * 4 + b / 16 == x && b % 16 * 16 + c / 4 == y;
  }

  lemma {:induction false} DecodeEncode(b: Bytes, url: bool)
    requires IsBytes(b)
    ensures DecodeQuanta(Encode(b, url), url) == Some(b)
    decreases |b|
  {
    hide DecodeQuanta, EncodeChar;
    if |b| == 0 {
      DecodeNothing(url);
    } else if |b| == 1 {
      DecodeOneByte(b[0] as int, url);
      assert b == [b[0]];
    } else if |b| == 2 {
      DecodeTwoBytes(b[0] as int, b[1] as int, url);
      assert b == [b[0], b[1]];
    } else {
      DecodeEncode(b[3..], url);
      DecodeFullQuantum(b[0] as int, b[1] as int, b[2] as int, Encode(b[3..], url), url);
      assert b == [b[0], b[1], b[2]] + b[3..];
    }
  }

  lemma DecodeNothing(url: bool)
    ensures DecodeQuanta([], url) == Some([])
  {
  }

  predicate AllAlphabet(s: Bytes, url: bool) { forall k :: 0 <= k < |s| ==> IsAlphabet(s[k], url) }

  lemma {:induction false} EncodeShape(b: Bytes, url: bool)
    requires IsBytes(b)
    ensures |Encode(b, url)| % 4 == 0 && AllAlphabet(Encode(b, url), url)
    ensures b != [] ==> Encode(b, url) != []
    decreases |b|
  {
    hide EncodeChar, IsAlphabet;
    if b != [] {
      var x := b[0] as int;
      var y := if |b| > 1 then b[1] as int else 0;
      var z := if |b| > 2 then b[2] as int else 0;
      CharIsAlphabet(x / 4, url);
      CharIsAlphabet(x % 4 * 16 + y / 16, url);
      CharIsAlphabet(y % 16 * 4 + z / 64, url);
      CharIsAlphabet(z % 64, url);
      assert y == 0 ==> y / 16 == 0;
      if |b| > 2 {
        EncodeShape(b[3..], url);
      }
    }
  }

  lemma CharIsAlphabet(v: nat, url: bool)
    requires v < 64
    ensures IsAlphabet(EncodeChar(v, url), url) && IsAlphabet('=', url)
  {
    CharRoundTrip(v, url);
  }

  lemma {:induction false} NoLineBreaksToSkip(s: Bytes)
    requires forall k :: 0 <= k < |s| ==> s[k] != '\r' && s[k] != '\n'
    ensures WithoutLineBreaks(s) == s
  {
    if s != [] {
      NoLineBreaksToSkip(s[1..]);
    }
  }

  lemma AlphabetIsPlain(c: Byte, url: bool)
    requires IsAlphabet(c, url)
    ensures ' ' < c < '\U{7f}'
  {
  }

  lemma NothingToTrim(s: Bytes)
    requires forall k :: 0 <= k < |s| ==> ' ' < s[k] < '\U{7f}'
    ensures TrimSpace(s) == s
  {
    hide TrimSpace;
    TrimSpaceStable(s);
  }

  /** What the URL encoder wrote, the lenient decoder reads back. */
  lemma DecodeLenientEncode(b: Bytes)
    requires IsBytes(b)
    ensures DecodeLenient(Encode(b, true)) == Some(b)
  {
    hide Encode, TrimSpace, DecodeQuanta, WithoutLineBreaks, IsAlphabet;
    var s := Encode(b, true);
    EncodeShape(b, true);
    forall k | 0 <= k < |s| ensures ' ' < s[k] < '\U{7f}' { AlphabetIsPlain(s[k], true); }
    NothingToTrim(s);
    NoLineBreaksToSkip(s);
    DecodeEncode(b, true);
  }

  // ---------------------------------------------------------------- text that does not decode

  lemma {:induction false} OutsideAlphabetFails(s: Bytes, url: bool, k: nat)
    requires k < |s| && !IsAlphabet(s[k], url)
    ensures DecodeQuanta(s, url).None?
    decreases |s|
  {
    if k >= 4 {
      OutsideAlphabetFails(s[4..], url, k - 4);
    }
  }

  lemma {:induction false} LineBreaksKeep(s: Bytes, c: Byte)
    requires c in s && c != '\r' && c != '\n'
    ensures c in WithoutLineBreaks(s)
  {
    if s[0] != c {
      LineBreaksKeep(s[1..], c);
    }
  }

  lemma SpacesAreNotGraphic(s: Bytes, k: nat)
    requires k < |s|
    ensures k < SpacePrefix(s) ==> !(' ' < s[k] < '\U{7f}')
    ensures k >= |s| - SpaceSuffix(s) ==> !(' ' < s[k] < '\U{7f}')
  {
  }

  lemma {:induction false} TrimLeftKeeps(s: Bytes, k: nat)
    requires k < |s| && ' ' < s[k] < '\U{7f}'
    ensures s[k] in TrimLeft(s)
    decreases |s|
  {
    hide SpacePrefix;
    var n := SpacePrefix(s);
    if n > 0 {
      SpacesAreNotGraphic(s, k);
      TrimLeftKeeps(s[n..], k - n);
    }
  }

  lemma {:induction false} TrimRightKeeps(s: Bytes, k: nat)
    requires k < |s| && ' ' < s[k] < '\U{7f}'
    ensures s[k] in TrimRight(s)
    decreases |s|
  {
    hide SpaceSuffix;
    var n := |s| - SpaceSuffix(s);
    if n < |s| {
      SpacesAreNotGraphic(s, k);
      TrimRightKeeps(s[..n], k);
    }
  }

  /** A visible character outside both alphabets. */
  predicate IsForeign(c: Byte) { ' ' < c < '\U{7f}' && !IsAlphabet(c, true) && !IsAlphabet(c, false) }

  lemma ForeignSurvivesTrimming(s: Bytes, c: Byte)
    requires c in s && IsForeign(c)
    ensures c in Pad(TrimSpace(s))
  {
    hide TrimLeft, TrimRight, IsAlphabet;
    var i :| 0 <= i < |s| && s[i] == c;
    TrimLeftKeeps(s, i);
    var l := TrimLeft(s);
    var j :| 0 <= j < |l| && l[j] == c;
    TrimRightKeeps(l, j);
  }

  /** A foreign character anywhere makes the text undecodable. */
  lemma ForeignFails(s: Bytes, c: Byte)
    requires c in s && IsForeign(c)
    ensures DecodeLenient(s).None?
  {
    hide TrimLeft, TrimRight, DecodeQuanta, WithoutLineBreaks, TrimSpace, Pad;
    ForeignSurvivesTrimming(s, c);
    var p := Pad(TrimSpace(s));
    LineBreaksKeep(p, c);
    var f := WithoutLineBreaks(p);
    var k :| 0 <= k < |f| && f[k] == c;
    OutsideAlphabetFails(f, true, k);
    OutsideAlphabetFails(f, false, k);
  }

  // ---------------------------------------------------------------- decoding never grows text

  predicate IsData(c: Byte) { c != '=' && c != '\r' && c != '\n' }

  /** How many characters carry data: neither padding nor line breaks. */
  function Symbols(s: Bytes): (n: nat)
    ensures n <= |s|
  {
    if s == [] then 0 else (if IsData(s[0]) then 1 else 0) + Symbols(s[1..])
  }

  lemma DecodableIsData(c: Byte, url: bool)
    ensures DecodeChar(c, url) >= 0 ==> IsData(c)
  {
  }

  lemma {:induction false} SymbolsAppend(a: Bytes, b: Bytes)
    ensures Symbols(a + b) == Symbols(a) + Symbols(b)
  {
    if a == [] {
      assert a + b == b;
    } else {
      assert (a + b)[1..] == a[1..] + b;
      SymbolsAppend(a[1..], b);
    }
  }

  lemma {:induction false} SymbolsOfPadding(n: nat)
    ensures Symbols(seq(n, _ => '=')) == 0
  {
    if n > 0 {
      assert seq(n, _ => '=')[1..] == seq(n - 1, _ => '=');
      SymbolsOfPadding(n - 1);
    }
  }

  lemma {:induction false} SymbolsSkipLineBreaks(s: Bytes)
    ensures Symbols(WithoutLineBreaks(s)) == Symbols(s)
  {
    if s != [] {
      SymbolsSkipLineBreaks(s[1..]);
      var head := if s[0] == '\r' || s[0] == '\n' then [] else [s[0]];
      SymbolsAppend(head, WithoutLineBreaks(s[1..]));
    }
  }

  lemma {:induction false} DecodedFitsSymbols(s: Bytes, url: bool)
    ensures DecodeQuanta(s, url).Some? ==> 4 * |DecodeQuanta(s, url).value| <= 3 * Symbols(s)
    decreases |s|
  {
    hide Symbols, DecodeChar;
    if s == [] {
    } else if DecodeQuanta(s, url).Some? {
      assert s == [s[0], s[1], s[2], s[3]] + s[4..];
      SymbolsAppend([s[0], s[1], s[2], s[3]], s[4..]);
      SymbolsOfFour(s[0], s[1], s[2], s[3]);
      DecodableIsData(s[0], url);
      DecodableIsData(s[1], url);
      DecodableIsData(s[2], url);
      DecodableIsData(s[3], url);
      if s[3] != '=' {
        DecodedFitsSymbols(s[4..], url);
      }
    }
  }

  lemma SymbolsOfFour(a: Byte, b: Byte, c: Byte, d: Byte)
    ensures IsData(a) && IsData(b) ==>
            Symbols([a, b, c, d]) == 2 + (if IsData(c) then 1 else 0) + (if IsData(d) then 1 else 0)
  {
    assert [a, b, c, d] == [a] + ([b] + ([c] + [d]));
    SymbolsAppend([a], [b] + ([c] + [d]));
    SymbolsAppend([b], [c] + [d]);
    SymbolsAppend([c], [d]);
  }

  /** Decoding takes a quarter off: whatever is not empty gets shorter. */
  lemma DecodedIsShorter(s: Bytes)
    ensures DecodeLenient(s).Some? ==> 4 * |DecodeLenient(s).value| <= 3 * |s|
  {
    hide DecodeQuanta, WithoutLineBreaks, TrimSpace;
    var t := TrimSpace(s);
    var pad := seq(4 - |t| % 4, _ => '=');
    SymbolsAppend(t, pad);
    SymbolsOfPadding(4 - |t| % 4);
    var p := Pad(t);
    SymbolsSkipLineBreaks(p);
    DecodedFitsSymbols(WithoutLineBreaks(p), true);
    DecodedFitsSymbols(WithoutLineBreaks(p), false);
  }

  // ---------------------------------------------------------------- the alphabet

  const ALPHABET: Bytes := "ABCDEFGHIJKLMNOPQRSTUVWXYZabcdefghijklmnopqrstuvwxyz0123456789"

  /** The characters in the order of section 4 of RFC 4648, and the two that section 5 replaces. */
  lemma AlphabetIsStandard(v: nat, url: bool)
    requires v < 64
    ensures EncodeChar(v, url) == if v < 62 then ALPHABET[v]
                                  else if v == 62 then (if url then '-' else '+') else (if url then '_' else '/')
  {
    var letters: Bytes := "ABCDEFGHIJKLMNOPQRSTUVWXYZ";
    assert v < 26 ==> ALPHABET[v] == letters[v];
    assert v < 62 ==> ALPHABET[v] as int == if v < 26 then 65 + v else if v < 52 then 97 + v - 26 else 48 + v - 52;
  }

  /** Three bytes become four characters from the highest bits down, as in the examples of section 10 of RFC 4648. */
  lemma QuantaAreStandard()
    ensures Encode("foo", true) == "Zm9v" && Encode("fo", true) == "Zm8=" && Encode("f", true) == "Zg=="
  {
    assert Encode([], true) == [];
    assert Encode("foo"[3..], true) == [];
  }

  // ---------------------------------------------------------------- the other encoders

  lemma CharIsShared(v: nat)
    requires v < 64 && EncodeChar(v, false) != '+' && EncodeChar(v, false) != '/'
    ensures EncodeChar(v, true) == EncodeChar(v, false)
  {
  }

  /** Text without the two characters that differ is the same in both alphabets. */
  lemma {:induction false} SameEncoding(b: Bytes)
    requires IsBytes(b) && '+' !in Encode(b, false) && '/' !in Encode(b, false)
    ensures Encode(b, true) == Encode(b, false)
    decreases |b|
  {
    var e := Encode(b, false);
    hide EncodeChar;
    if b != [] {
      var x := b[0] as int;
      assert e[0] in e && e[1] in e;
      CharIsShared(x / 4);
      if |b| == 1 {
        CharIsShared(x % 4 * 16);
      } else {
        var y := b[1] as int;
        assert e[2] in e;
        CharIsShared(x % 4 * 16 + y / 16);
        if |b| == 2 {
          CharIsShared(y % 16 * 4);
        } else {
          var z := b[2] as int;
          assert e[3] in e;
          CharIsShared(y % 16 * 4 + z / 64);
          CharIsShared(z % 64);
          assert forall c :: c in Encode(b[3..], false) ==> c in e;
          SameEncoding(b[3..]);
        }
      }
    }
  }

  lemma PlusIsForeignToUrl(s: Bytes, c: Byte)
    requires c in s && (c == '+' || c == '/')
    ensures DecodeQuanta(s, true).None?
  {
    var k :| 0 <= k < |s| && s[k] == c;
    OutsideAlphabetFails(s, true, k);
  }

  /** Both alphabets are told apart, or do not differ. */
  lemma BothAlphabetsDecode(b: Bytes, url: bool)
    requires IsBytes(b)
    ensures var p := Encode(b, url);
            WithoutLineBreaks(p) == p
            && (if DecodeQuanta(p, true).Some? then DecodeQuanta(p, true) else DecodeQuanta(p, false)) == Some(b)
  {
    var p := Encode(b, url);
    EncodeShape(b, url);
    forall k | 0 <= k < |p| ensures ' ' < p[k] < '\U{7f}' { AlphabetIsPlain(p[k], url); }
    hide Encode, DecodeQuanta, WithoutLineBreaks, IsAlphabet;
    NoLineBreaksToSkip(p);
    DecodeEncode(b, url);
    if !url {
      if '+' in p {
        PlusIsForeignToUrl(p, '+');
      } else if '/' in p {
        PlusIsForeignToUrl(p, '/');
      } else {
        SameEncoding(b);
        DecodeEncode(b, true);
      }
    }
  }

  /** How many padding characters an encoding ends in. */
  function Padding(n: nat): nat { (3 - n % 3) % 3 }

  predicate EndsPadded(e: Bytes, p: nat) { p <= |e| && forall k :: |e| - p <= k < |e| ==> e[k] == '=' }

  lemma {:induction false} EncodeEnds(b: Bytes, url: bool)
    requires IsBytes(b)
    ensures |Encode(b, url)| % 4 == 0 && EndsPadded(Encode(b, url), Padding(|b|))
    decreases |b|
  {
    hide EncodeChar;
    if |b| > 2 {
      EncodeEnds(b[3..], url);
      var first, rest := Encode(b, url)[..4], Encode(b[3..], url);
      assert Encode(b, url) == first + rest;
      assert Padding(|b[3..]|) == Padding(|b|);
      hide Encode;
      EndsLater(first, rest, Padding(|b|));
    }
  }

  lemma EndsLater(first: Bytes, rest: Bytes, p: nat)
    requires EndsPadded(rest, p)
    ensures EndsPadded(first + rest, p)
  {
  }

  /** The encoding without its padding. */
  function Unpadded(b: Bytes, url: bool): Bytes
    requires IsBytes(b)
  {
    EncodeEnds(b, url);
    Encode(b, url)[..|Encode(b, url)| - Padding(|b|)]
  }

  lemma PadsBackTo(e: Bytes, p: nat)
    requires |e| % 4 == 0 && p < 4 && EndsPadded(e, p)
    ensures Pad(e[..|e| - p]) == e && Pad(e) == e
  {
    var t := e[..|e| - p];
    if p > 0 {
      assert 4 - |t| % 4 == p;
      assert e == t + seq(p, _ => '=');
    } else {
      assert t == e;
    }
  }

  lemma PadsBack(b: Bytes, url: bool)
    requires IsBytes(b)
    ensures Pad(Unpadded(b, url)) == Encode(b, url) == Pad(Encode(b, url))
  {
    hide Encode, EndsPadded, Pad;
    EncodeEnds(b, url);
    PadsBackTo(Encode(b, url), Padding(|b|));
  }

  predicate IsPlain(s: Bytes) { forall k :: 0 <= k < |s| ==> ' ' < s[k] < '\U{7f}' }

  lemma PrefixIsPlain(s: Bytes, n: nat)
    requires n <= |s| && IsPlain(s)
    ensures IsPlain(s[..n])
  {
  }

  lemma EncodingIsPlain(b: Bytes, url: bool)
    requires IsBytes(b)
    ensures IsPlain(Encode(b, url))
  {
    EncodeShape(b, url);
    hide Encode, IsAlphabet;
    var e := Encode(b, url);
    forall k | 0 <= k < |e| ensures ' ' < e[k] < '\U{7f}' { AlphabetIsPlain(e[k], url); }
  }

  lemma PlainIsTrimmed(s: Bytes)
    requires IsPlain(s)
    ensures TrimSpace(s) == s
  {
    hide TrimSpace;
    NothingToTrim(s);
  }

  lemma PlainEncoding(b: Bytes, url: bool)
    requires IsBytes(b)
    ensures TrimSpace(Encode(b, url)) == Encode(b, url) && TrimSpace(Unpadded(b, url)) == Unpadded(b, url)
  {
    hide Encode, TrimSpace, IsPlain;
    EncodingIsPlain(b, url);
    EncodeEnds(b, url);
    PrefixIsPlain(Encode(b, url), |Encode(b, url)| - Padding(|b|));
    PlainIsTrimmed(Encode(b, url));
    PlainIsTrimmed(Unpadded(b, url));
  }

  /** The lenient decoder reads all four encoders back: either alphabet, padded or not. */
  lemma AllEncodersDecode(b: Bytes, url: bool)
    requires IsBytes(b)
    ensures DecodeLenient(Encode(b, url)) == Some(b) && DecodeLenient(Unpadded(b, url)) == Some(b)
  {
    hide Encode, Unpadded, Pad, TrimSpace, DecodeQuanta, WithoutLineBreaks;
    PlainEncoding(b, url);
    PadsBack(b, url);
    BothAlphabetsDecode(b, url);
  }
}
