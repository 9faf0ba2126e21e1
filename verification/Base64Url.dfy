/**
  The text form of key components: base64url (section 5 of RFC 4648) without padding
  (section 3.2). Components are given as the bytes of their UTF-8 form.
*/
module Base64Url {
  import opened Wrappers

  type byte = x: int | 0 <= x < 256
  type sextet = x: int | 0 <= x < 64

  /** The base64url alphabet. */
  function CharOf(v: sextet): char {
    if v < 26 then (v + 'A' as int) as char
    else if v < 52 then (v - 26 + 'a' as int) as char
    else if v < 62 then (v - 52 + '0' as int) as char
    else if v == 62 then '-'
    else '_'
  }

  function ValueOf(c: char): Option<sextet> {
    if 'A' <= c <= 'Z' then Some(c as int - 'A' as int)
    else if 'a' <= c <= 'z' then Some(c as int - 'a' as int + 26)
    else if '0' <= c <= '9' then Some(c as int - '0' as int + 52)
    else if c == '-' then Some(62)
    else if c == '_' then Some(63)
    else None
  }

  lemma CharReadsBack(v: sextet)
    ensures ValueOf(CharOf(v)) == Some(v)
    ensures CharOf(v) != ':' && CharOf(v) != '='
  {
  }

  lemma OnlyAlphabetHasValues(c: char)
    ensures ValueOf(c).Some? ==> CharOf(ValueOf(c).value) == c
  {
  }

  // ---------- Groups ----------

  /** The four characters of a group of one to three bytes, padded. */
  function EncodeGroup(b: seq<byte>): (s: string)
    requires 1 <= |b| <= 3
    ensures |s| == 4
  {
    var b1 := if |b| > 1 then b[1] else 0;
    var b2 := if |b| > 2 then b[2] else 0;
    [CharOf(b[0] / 4),
     CharOf((b[0] % 4) * 16 + b1 / 16),
     if |b| > 1 then CharOf((b1 % 16) * 4 + b2 / 64) else '=',
     if |b| > 2 then CharOf(b2 % 64) else '=']
  }

  /** The bytes of a group of four characters, of which the last one or two may be padding. */
  function DecodeGroup(s: string): Option<seq<byte>>
    requires |s| == 4
  {
    var v0, v1, v2, v3 := ValueOf(s[0]), ValueOf(s[1]), ValueOf(s[2]), ValueOf(s[3]);
    if v0.None? || v1.None? then None
    else
      var first: byte := v0.value * 4 + v1.value / 16;
      if s[2] == '=' && s[3] == '=' then Some([first])
      else if v2.None? then None
      else
        var second: byte := (v1.value % 16) * 16 + v2.value / 4;
        if s[3] == '=' then Some([first, second])
        else if v3.None? then None
        else
          var third: byte := (v2.value % 4) * 64 + v3.value;
          Some([first, second, third])
  }

  /** The bytes of four sextets. */
  function BytesOf(v0: sextet, v1: sextet, v2: sextet, v3: sextet): seq<byte> {
    [v0 * 4 + v1 / 16, (v1 % 16) * 16 + v2 / 4, (v2 % 4) * 64 + v3]
  }

  /** Two digits packed in one number. */
  lemma Pack(high: nat, low: nat, base: nat)
    requires low < base
    ensures (high * base + low) / base == high && (high * base + low) % base == low
  {
    var q := (high * base + low) / base;
    assert q < high ==> q * base <= (high - 1) * base;
    assert q > high ==> q * base >= (high + 1) * base;
  }

  lemma Unpacked(b0: byte, b1: byte, b2: byte)
    ensures BytesOf(b0 / 4, (b0 % 4) * 16 + b1 / 16, (b1 % 16) * 4 + b2 / 64, b2 % 64) == [b0, b1, b2]
  {
    Pack(b0 % 4, b1 / 16, 16);
    Pack(b1 % 16, b2 / 64, 4);
  }

  lemma GroupChars(b: seq<byte>, b1: byte, b2: byte)
    requires 1 <= |b| <= 3 && (|b| > 1 ==> b[1] == b1) && (if |b| > 2 then b[2] == b2 else b2 == 0)
    requires |b| == 1 ==> b1 == 0
    ensures EncodeGroup(b) ==
            [CharOf(b[0] / 4), CharOf((b[0] % 4) * 16 + b1 / 16),
             if |b| > 1 then CharOf((b1 % 16) * 4 + b2 / 64) else '=', if |b| > 2 then CharOf(b2 % 64) else '=']
  {
    hide CharOf;
  }

  /** The four sextets of a padded group, from which its bytes come back. */
  lemma Sextets(b: seq<byte>) returns (v0: sextet, v1: sextet, v2: sextet, v3: sextet)
    requires 1 <= |b| <= 3
    ensures EncodeGroup(b) ==
            [CharOf(v0), CharOf(v1), if |b| > 1 then CharOf(v2) else '=', if |b| > 2 then CharOf(v3) else '=']
    ensures b == BytesOf(v0, v1, v2, v3)[..|b|]
  {
    hide CharOf, BytesOf, EncodeGroup;
    var b1 := if |b| > 1 then b[1] else 0;
    var b2 := if |b| > 2 then b[2] else 0;
    v0, v1, v2, v3 := b[0] / 4, (b[0] % 4) * 16 + b1 / 16, (b1 % 16) * 4 + b2 / 64, b2 % 64;
    GroupChars(b, b1, b2);
    Unpacked(b[0], b1, b2);
    assert b == [b[0], b1, b2][..|b|];
  }

  /** The characters of a group; the last ones are padding. */
  lemma GroupText(b: seq<byte>)
    requires 1 <= |b| <= 3
    ensures forall i :: 0 <= i < |b| + 1 ==> EncodeGroup(b)[i] != '='
    ensures forall i :: |b| + 1 <= i < 4 ==> EncodeGroup(b)[i] == '='
    ensures ':' !in EncodeGroup(b)
  {
  }

  lemma Decodes(s: string, n: nat, v0: sextet, v1: sextet, v2: sextet, v3: sextet)
    requires 1 <= n <= 3 && |s| == 4 && s[0] == CharOf(v0) && s[1] == CharOf(v1)
    requires s[2] == if n > 1 then CharOf(v2) else '='
    requires s[3] == if n > 2 then CharOf(v3) else '='
    ensures DecodeGroup(s) == Some(BytesOf(v0, v1, v2, v3)[..n])
  {
    CharReadsBack(v0);
    CharReadsBack(v1);
    CharReadsBack(v2);
    CharReadsBack(v3);
    var bs := BytesOf(v0, v1, v2, v3);
    assert bs[..1] == [bs[0]];
    assert bs[..2] == [bs[0], bs[1]];
    assert bs[..3] == [bs[0], bs[1], bs[2]];
  }

  lemma GroupReadsBack(b: seq<byte>)
    requires 1 <= |b| <= 3
    ensures DecodeGroup(EncodeGroup(b)) == Some(b)
  {
    var v0, v1, v2, v3 := Sextets(b);
    Decodes(EncodeGroup(b), |b|, v0, v1, v2, v3);
  }

  // ---------- Padded text ----------

  function EncodePadded(b: seq<byte>): string {
    if b == [] then ""
    else if |b| <= 3 then EncodeGroup(b)
    else EncodeGroup(b[..3]) + EncodePadded(b[3..])
  }

  lemma {:induction false} WholeGroups(b: seq<byte>)
    ensures |EncodePadded(b)| % 4 == 0
  {
    hide EncodeGroup;
    if |b| > 3 {
      WholeGroups(b[3..]);
    }
  }

  function DecodePadded(s: string): Option<seq<byte>> {
    if s == "" then Some([])
    else if |s| < 4 then None
    else
      var group, rest := DecodeGroup(s[..4]), DecodePadded(s[4..]);
      if group.None? || rest.None? then None else Some(group.value + rest.value)
  }

  lemma {:induction false} PaddedReadsBack(b: seq<byte>)
    ensures DecodePadded(EncodePadded(b)) == Some(b)
  {
    if b != [] {
      if |b| <= 3 {
        GroupReadsBack(b);
        assert EncodePadded(b)[..4] == EncodePadded(b) && EncodePadded(b)[4..] == "";
        assert b + [] == b;
      } else {
        GroupReadsBack(b[..3]);
        PaddedReadsBack(b[3..]);
        assert EncodePadded(b)[..4] == EncodeGroup(b[..3]) && EncodePadded(b)[4..] == EncodePadded(b[3..]);
        assert b == b[..3] + b[3..];
      }
    }
  }

  // ---------- Components ----------

  function StripPadding(s: string): string {
    if s != "" && s[|s| - 1] == '=' then StripPadding(s[..|s| - 1]) else s
  }

  /** The padding that makes the length a multiple of four. */
  function Padding(n: nat): string {
    if n % 4 == 0 then "" else if n % 4 == 1 then "===" else if n % 4 == 2 then "==" else "="
  }

  lemma PaddingCompletes(n: nat)
    ensures (n + |Padding(n)|) % 4 == 0 && |Padding(n)| < 4 && forall c :: c in Padding(n) ==> c == '='
  {
  }

  function EncodeComponent(value: seq<byte>): string {
    StripPadding(EncodePadded(value))
  }

  function DecodeComponent(text: string): Option<seq<byte>> {
    DecodePadded(text + Padding(|text|))
  }

  lemma {:induction false} StripsTrailing(s: string, pad: string)
    requires forall i :: 0 <= i < |pad| ==> pad[i] == '='
    requires s != "" ==> s[|s| - 1] != '='
    ensures StripPadding(s + pad) == s
    decreases |pad|
  {
    if pad == "" {
      assert s + pad == s;
    } else {
      assert (s + pad)[..|s + pad| - 1] == s + pad[..|pad| - 1];
      StripsTrailing(s, pad[..|pad| - 1]);
    }
  }

  /** Encoded text is its unpadded part, which does not end in padding, and one or two `=` at most. */
  lemma {:induction false} PaddingIsTrailing(b: seq<byte>) returns (s: string, pad: string)
    ensures EncodePadded(b) == s + pad && (s != "" ==> s[|s| - 1] != '=')
    ensures |pad| <= 2 && forall i :: 0 <= i < |pad| ==> pad[i] == '='
    ensures ':' !in s
  {
    if b == [] {
      s, pad := "", "";
    } else if |b| <= 3 {
      GroupText(b);
      s, pad := EncodeGroup(b)[..|b| + 1], EncodeGroup(b)[|b| + 1..];
    } else {
      GroupText(b[..3]);
      s, pad := PaddingIsTrailing(b[3..]);
      s := EncodeGroup(b[..3]) + s;
      assert EncodePadded(b) == s + pad;
    }
  }

  /** Taking the padding off loses nothing: every component decodes to what was encoded, and has no colon. */
  lemma ComponentRoundTrip(value: seq<byte>)
    ensures DecodeComponent(EncodeComponent(value)) == Some(value)
    ensures ':' !in EncodeComponent(value)
  {
    var s, pad := PaddingIsTrailing(value);
    StripsTrailing(s, pad);
    WholeGroups(value);
    PaddingRestored(s, pad);
    PaddedReadsBack(value);
  }

  lemma PaddingRestored(s: string, pad: string)
    requires |s + pad| % 4 == 0 && |pad| <= 2
    requires forall i :: 0 <= i < |pad| ==> pad[i] == '='
    ensures Padding(|s|) == pad
  {
    if |pad| == 0 {
      assert pad == "";
    } else if |pad| == 1 {
      assert pad == "=";
    } else {
      assert pad == "==";
    }
  }

  lemma EncodeInjective(a: seq<byte>, b: seq<byte>)
    requires EncodeComponent(a) == EncodeComponent(b)
    ensures a == b
  {
    ComponentRoundTrip(a);
    ComponentRoundTrip(b);
  }

  // ---------- The vectors of section 10 of RFC 4648 ----------

  lemma VectorGroups()
    ensures EncodeGroup([0x66]) == "Zg==" && EncodeGroup([0x66, 0x6f]) == "Zm8="
    ensures EncodeGroup([0x66, 0x6f, 0x6f]) == "Zm9v" && EncodeGroup([0x62, 0x61, 0x72]) == "YmFy"
    ensures EncodeGroup([0xff, 0xef, 0xfe]) == "_-_-"
  {
  }

  /** "f" and "fo" lose their padding; "foobar" needs none. */
  lemma Vectors()
    ensures EncodeComponent([]) == ""
    ensures EncodeComponent([0x66]) == "Zg" && EncodeComponent([0x66, 0x6f]) == "Zm8"
    ensures EncodeComponent([0x66, 0x6f, 0x6f, 0x62, 0x61, 0x72]) == "Zm9vYmFy"
  {
    hide EncodeGroup;
    VectorGroups();
    var foobar: seq<byte> := [0x66, 0x6f, 0x6f, 0x62, 0x61, 0x72];
    assert foobar[..3] == [0x66, 0x6f, 0x6f] && foobar[3..] == [0x62, 0x61, 0x72];
    assert EncodePadded(foobar) == "Zm9v" + "YmFy";
    StripsTrailing("Zg", "==");
    StripsTrailing("Zm8", "=");
    assert "Zg" + "==" == "Zg==" && "Zm8" + "=" == "Zm8=";
  }
}
