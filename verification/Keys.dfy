/**
 Percent-encoding of key components over their UTF-8 bytes, and its inverse
 (src/r2g/keys.py). Text is a sequence of code points, as a Python `str` is;
 a lone surrogate has no UTF-8 form.
 */
module Keys {
  import opened Characters

  type Text = seq<nat>
  type Bytes = seq<nat>

  predicate IsSurrogate(c: nat) { 0xD800 <= c <= 0xDFFF }

  /** A code point that UTF-8 can carry. */
  predicate IsScalar(c: nat) { c <= 0x10FFFF && !IsSurrogate(c) }

  predicate IsDigit(c: nat) { '0' as nat <= c <= '9' as nat }

  /** The characters left as they are; `%` is not among them. */
  predicate PassThrough(c: nat)
  {
    || 'a' as nat <= c <= 'z' as nat || 'A' as nat <= c <= 'Z' as nat || IsDigit(c)
    || c in ['_' as nat, '-' as nat, ':' as nat, '.' as nat, '@' as nat, '(' as nat, ')' as nat, '+' as nat,
             ',' as nat, '=' as nat, ';' as nat, '$' as nat, '!' as nat, '*' as nat, '\'' as nat]
  }

  /** UTF-8, section 3 of RFC 3629. */
  function Utf8(c: nat): (b: Bytes)
    requires IsScalar(c)
    ensures b != [] && forall k :: 0 <= k < |b| ==> b[k] < 256
  {
    if c < 0x80 then [c]
    else if c < 0x800 then [0xC0 + c / 64, 0x80 + c % 64]
    else if c < 0x10000 then [0xE0 + c / 4096, 0x80 + c / 64 % 64, 0x80 + c % 64]
    else [0xF0 + c / 262144, 0x80 + c / 4096 % 64, 0x80 + c / 64 % 64, 0x80 + c % 64]
  }

  function HexDigit(d: nat): nat
    requires d < 16
  {
    if d < 10 then '0' as nat + d else 'A' as nat + (d - 10)
  }

  const PERCENT: nat := '%' as nat

  /** `%XX` */
  function Percent(b: nat): Text
    requires b < 256
  {
    [PERCENT, HexDigit(b / 16), HexDigit(b % 16)]
  }

  function PercentAll(b: Bytes): Text
    requires forall k :: 0 <= k < |b| ==> b[k] < 256
  {
    if b == [] then [] else Percent(b[0]) + PercentAll(b[1..])
  }

  /** One character of a sanitized key. */
  function Encoded(c: nat): Text
    requires IsScalar(c)
  {
    if PassThrough(c) then [c] else PercentAll(Utf8(c))
  }

  /** The sanitized component; nothing for text with a lone surrogate, where
      encoding raises. */
  function Sanitized(text: Text): Option<Text>
  {
    if text == [] then Some([])
    else if !IsScalar(text[0]) then None
    else
      var rest := Sanitized(text[1..]);
      if rest.None? then None else Some(Encoded(text[0]) + rest.value)
  }

  lemma {:induction false} SanitizedAppend(a: Text, b: Text)
    ensures Sanitized(a + b) ==
      if Sanitized(a).Some? && Sanitized(b).Some? then Some(Sanitized(a).value + Sanitized(b).value) else None
  {
    if a == [] {
      assert a + b == b;
      assert Sanitized(b).Some? ==> [] + Sanitized(b).value == Sanitized(b).value;
    } else {
      assert (a + b)[0] == a[0] && (a + b)[1..] == a[1..] + b;
      SanitizedAppend(a[1..], b);
      if IsScalar(a[0]) && Sanitized(a[1..]).Some? && Sanitized(b).Some? {
        assert Encoded(a[0]) + (Sanitized(a[1..]).value + Sanitized(b).value)
            == (Encoded(a[0]) + Sanitized(a[1..]).value) + Sanitized(b).value;
      }
    }
  }

  lemma SanitizedOne(c: nat)
    ensures Sanitized([c]) == if IsScalar(c) then Some(Encoded(c)) else None
  {
    assert [c][1..] == [];
    if IsScalar(c) {
      assert Encoded(c) + [] == Encoded(c);
    }
  }

  lemma {:induction false} PercentAllAppend(b: Bytes, x: nat)
    requires (forall k :: 0 <= k < |b| ==> b[k] < 256) && x < 256
    ensures PercentAll(b + [x]) == PercentAll(b) + Percent(x)
  {
    if b == [] {
      assert [] + [x] == [x] && [x][1..] == [];
      assert Percent(x) + [] == [] + Percent(x);
    } else {
      assert (b + [x])[0] == b[0] && (b + [x])[1..] == b[1..] + [x];
      PercentAllAppend(b[1..], x);
      assert Percent(b[0]) + (PercentAll(b[1..]) + Percent(x)) == (Percent(b[0]) + PercentAll(b[1..])) + Percent(x);
    }
  }

  /** One more character of the text done. */
  lemma SanitizedStep(text: Text, i: nat)
    requires i < |text| && Sanitized(text[..i]).Some?
    ensures IsScalar(text[i]) ==> Sanitized(text[..i + 1]) == Some(Sanitized(text[..i]).value + Encoded(text[i]))
    ensures !IsScalar(text[i]) ==> Sanitized(text) == None
  {
    hide Sanitized;
    assert text[..i + 1] == text[..i] + [text[i]];
    SanitizedAppend(text[..i], [text[i]]);
    SanitizedOne(text[i]);
    assert text == text[..i + 1] + text[i + 1..];
    SanitizedAppend(text[..i + 1], text[i + 1..]);
  }

  /** The loop of `sanitize_key_component`. */
  method SanitizeKeyComponent(text: Text) returns (r: Option<Text>)
    ensures r == Sanitized(text)
  {
    var out: Text := [];
    for i := 0 to |text|
      invariant Sanitized(text[..i]) == Some(out)
    {
      var ch := text[i];
      SanitizedStep(text, i);
      if PassThrough(ch) {
        out := out + [ch];
      } else if !IsScalar(ch) {
        return None;
      } else {
        out := AppendEncoded(out, Utf8(ch));
      }
    }
    assert text[..|text|] == text;
    r := Some(out);
  }

  /** Its inner loop: one `%XX` per byte. */
  method AppendEncoded(before: Text, bytes: Bytes) returns (out: Text)
    requires forall k :: 0 <= k < |bytes| ==> bytes[k] < 256
    ensures out == before + PercentAll(bytes)
  {
    out := before;
    for j := 0 to |bytes|
      invariant out == before + PercentAll(bytes[..j])
    {
      assert bytes[..j + 1] == bytes[..j] + [bytes[j]];
      PercentAllAppend(bytes[..j], bytes[j]);
      out := out + Percent(bytes[j]);
    }
    assert bytes[..|bytes|] == bytes;
  }

  // ----- the alphabet

  const LOWER := "abcdefghijklmnopqrstuvwxyz"
  const UPPER := "ABCDEFGHIJKLMNOPQRSTUVWXYZ"
  const DIGITS := "0123456789"
  const MARKS := "_-:.@()+,=;$!*'"

  /** The characters a document key may have, but for the escape character. */
  const LEGAL := LOWER + UPPER + DIGITS + MARKS

  const HEX := "0123456789ABCDEF"

  predicate OneOf(c: nat, alphabet: string)
  {
    exists k :: 0 <= k < |alphabet| && alphabet[k] as nat == c
  }

  ghost predicate Runs(alphabet: string, from: nat)
  {
    forall k :: 0 <= k < |alphabet| ==> alphabet[k] as nat == from + k
  }

  lemma Alphabets()
    ensures |LOWER| == 26 && |UPPER| == 26 && |DIGITS| == 10
    ensures Runs(LOWER, 'a' as nat) && Runs(UPPER, 'A' as nat) && Runs(DIGITS, '0' as nat)
  {
  }

  lemma InRun(c: nat, alphabet: string, from: nat)
    requires Runs(alphabet, from)
    ensures OneOf(c, alphabet) <==> from <= c < from + |alphabet|
  {
    if from <= c < from + |alphabet| {
      assert alphabet[c - from] as nat == c;
    }
  }

  lemma Ranges(c: nat)
    ensures OneOf(c, LOWER) <==> 'a' as nat <= c <= 'z' as nat
    ensures OneOf(c, UPPER) <==> 'A' as nat <= c <= 'Z' as nat
    ensures OneOf(c, DIGITS) <==> '0' as nat <= c <= '9' as nat
  {
    hide Runs, OneOf;
    Alphabets();
    InRun(c, LOWER, 'a' as nat);
    InRun(c, UPPER, 'A' as nat);
    InRun(c, DIGITS, '0' as nat);
  }

  lemma OneOfBoth(c: nat, a: string, b: string)
    ensures OneOf(c, a + b) <==> OneOf(c, a) || OneOf(c, b)
  {
    if k :| 0 <= k < |a| && a[k] as nat == c {
      assert (a + b)[k] == a[k];
    }
    if k :| 0 <= k < |b| && b[k] as nat == c {
      assert (a + b)[|a| + k] == b[k];
    }
  }

  lemma Marks(c: nat)
    ensures OneOf(c, MARKS) <==>
      c in ['_' as nat, '-' as nat, ':' as nat, '.' as nat, '@' as nat, '(' as nat, ')' as nat, '+' as nat,
            ',' as nat, '=' as nat, ';' as nat, '$' as nat, '!' as nat, '*' as nat, '\'' as nat]
  {
    var marks := ['_' as nat, '-' as nat, ':' as nat, '.' as nat, '@' as nat, '(' as nat, ')' as nat, '+' as nat,
                  ',' as nat, '=' as nat, ';' as nat, '$' as nat, '!' as nat, '*' as nat, '\'' as nat];
    assert |marks| == |MARKS| && forall k :: 0 <= k < |MARKS| ==> MARKS[k] as nat == marks[k];
    if c in marks {
      var k :| 0 <= k < |marks| && marks[k] == c;
      assert MARKS[k] as nat == c;
    }
  }

  lemma PassThroughIsLegal(c: nat)
    ensures PassThrough(c) <==> OneOf(c, LEGAL)
  {
    hide OneOf;
    Ranges(c);
    Marks(c);
    OneOfBoth(c, LOWER, UPPER);
    OneOfBoth(c, LOWER + UPPER, DIGITS);
    OneOfBoth(c, LOWER + UPPER + DIGITS, MARKS);
  }

  /** A key made of legal characters and of escapes `%XX` with upper-case digits. */
  predicate IsKey(key: Text)
    decreases |key|
  {
    || key == []
    || (OneOf(key[0], LEGAL) && IsKey(key[1..]))
    || (key[0] == PERCENT && |key| >= 3 && OneOf(key[1], HEX) && OneOf(key[2], HEX) && IsKey(key[3..]))
  }

  lemma HexDigitIsHex(d: nat)
    requires d < 16
    ensures OneOf(HexDigit(d), HEX)
  {
    assert HEX[d] as nat == HexDigit(d);
  }

  lemma {:induction false} EscapesAreKey(b: Bytes, rest: Text)
    requires (forall k :: 0 <= k < |b| ==> b[k] < 256) && IsKey(rest)
    ensures IsKey(PercentAll(b) + rest)
  {
    hide OneOf;
    if b == [] {
      assert PercentAll(b) + rest == rest;
    } else {
      EscapesAreKey(b[1..], rest);
      HexDigitIsHex(b[0] / 16);
      HexDigitIsHex(b[0] % 16);
      var key, more := PercentAll(b) + rest, PercentAll(b[1..]) + rest;
      assert key == Percent(b[0]) + more;
      assert key[3..] == more;
    }
  }

  /** A sanitized key holds legal characters and escapes only. */
  lemma {:induction false} SanitizedAlphabet(text: Text)
    requires Sanitized(text).Some?
    ensures IsKey(Sanitized(text).value)
  {
    if text == [] {
    } else {
      SanitizedAlphabet(text[1..]);
      PassThroughIsLegal(text[0]);
      hide OneOf, PassThrough;
      var c, rest := text[0], Sanitized(text[1..]).value;
      if PassThrough(c) {
        assert ([c] + rest)[1..] == rest;
      } else {
        EscapesAreKey(Utf8(c), rest);
      }
    }
  }

  /** A text is its own key exactly when all its characters are legal. */
  lemma {:induction false} LegalUnchanged(text: Text)
    ensures Sanitized(text) == Some(text) <==> forall k :: 0 <= k < |text| ==> OneOf(text[k], LEGAL)
    ensures Sanitized(text).Some? ==> |Sanitized(text).value| >= |text|
  {
    if text == [] {
    } else {
      var c, rest := text[0], text[1..];
      LegalUnchanged(rest);
      PassThroughIsLegal(c);
      hide OneOf, PassThrough;
      assert text == [c] + rest;
      forall k | 0 <= k < |rest| ensures rest[k] == text[k + 1] {
      }
      assert (forall k :: 0 <= k < |text| ==> OneOf(text[k], LEGAL)) <==>
        OneOf(c, LEGAL) && forall k :: 0 <= k < |rest| ==> OneOf(rest[k], LEGAL) by {
        if forall k :: 0 <= k < |text| ==> OneOf(text[k], LEGAL) {
          assert text[0] == c;
        }
        if OneOf(c, LEGAL) && forall k :: 0 <= k < |rest| ==> OneOf(rest[k], LEGAL) {
          forall k | 0 <= k < |text| ensures OneOf(text[k], LEGAL) {
            if k > 0 { assert rest[k - 1] == text[k]; }
          }
        }
      }
      if PassThrough(c) {
        LegalIsScalar(c);
        if Sanitized(rest).Some? {
          assert [c] + Sanitized(rest).value == [c] + rest <==> Sanitized(rest).value == rest by {
            assert ([c] + Sanitized(rest).value)[1..] == Sanitized(rest).value && ([c] + rest)[1..] == rest;
          }
        }
      } else if IsScalar(c) {
        EscapedLonger(Utf8(c));
      }
    }
  }

  lemma LegalIsScalar(c: nat)
    requires PassThrough(c)
    ensures IsScalar(c)
  {
  }

  lemma EscapedLonger(b: Bytes)
    requires b != [] && forall k :: 0 <= k < |b| ==> b[k] < 256
    ensures |PercentAll(b)| >= 3
  {
  }

  /** One character is its own key exactly when it is legal. */
  lemma LegalAlone(c: nat)
    ensures Sanitized([c]) == Some([c]) <==> OneOf(c, LEGAL)
  {
    LegalUnchanged([c]);
    hide OneOf;
    assert [c][0] == c;
  }

  // ----- the inverse

  function HexValue(c: nat): Option<nat>
  {
    if IsDigit(c) then Some(c - '0' as nat)
    else if 'A' as nat <= c <= 'F' as nat then Some(c - 'A' as nat + 10)
    else None
  }

  /** Percent-decoding: the bytes a key stands for. */
  function Unpercent(key: Text): Option<Bytes>
    decreases |key|
  {
    if key == [] then Some([])
    else if key[0] == PERCENT then
      if |key| < 3 || HexValue(key[1]).None? || HexValue(key[2]).None? then None
      else
        var rest := Unpercent(key[3..]);
        if rest.None? then None
        else Some([16 * HexValue(key[1]).value + HexValue(key[2]).value] + rest.value)
    else
      var rest := Unpercent(key[1..]);
      if rest.None? then None else Some([key[0]] + rest.value)
  }

  predicate Continuation(b: nat) { 0x80 <= b < 0xC0 }

  datatype Decoded = Decoded(c: nat, length: nat)

  /** The first character of a byte sequence, strictly: no overlong form, no
      surrogate, nothing above U+10FFFF. */
  function DecodeOne(b: Bytes): (r: Option<Decoded>)
    requires b != []
    ensures r.Some? ==> 0 < r.value.length <= |b| && IsScalar(r.value.c)
  {
    if b[0] < 0x80 then Some(Decoded(b[0], 1))
    else if 0xC0 <= b[0] < 0xE0 && |b| >= 2 && Continuation(b[1]) then
      var c := (b[0] - 0xC0) * 64 + (b[1] - 0x80);
      if c >= 0x80 then Some(Decoded(c, 2)) else None
    else if 0xE0 <= b[0] < 0xF0 && |b| >= 3 && Continuation(b[1]) && Continuation(b[2]) then
      var c := (b[0] - 0xE0) * 4096 + (b[1] - 0x80) * 64 + (b[2] - 0x80);
      if c >= 0x800 && !IsSurrogate(c) then Some(Decoded(c, 3)) else None
    else if 0xF0 <= b[0] < 0xF8 && |b| >= 4 && Continuation(b[1]) && Continuation(b[2]) && Continuation(b[3]) then
      var c := (b[0] - 0xF0) * 262144 + (b[1] - 0x80) * 4096 + (b[2] - 0x80) * 64 + (b[3] - 0x80);
      if 0x10000 <= c <= 0x10FFFF then Some(Decoded(c, 4)) else None
    else None
  }

  function Utf8Decode(b: Bytes): Option<Text>
    decreases |b|
  {
    if b == [] then Some([])
    else
      var one := DecodeOne(b);
      if one.None? then None
      else
        var rest := Utf8Decode(b[one.value.length..]);
        if rest.None? then None else Some([one.value.c] + rest.value)
  }

  function Utf8All(text: Text): Option<Bytes>
  {
    if text == [] then Some([])
    else if !IsScalar(text[0]) then None
    else
      var rest := Utf8All(text[1..]);
      if rest.None? then None else Some(Utf8(text[0]) + rest.value)
  }

  lemma Prefix(b: Bytes, rest: Bytes)
    ensures |b + rest| >= |b|
    ensures forall k :: 0 <= k < |b| ==> (b + rest)[k] == b[k]
  {
  }

  /** Digits in base 64 put a code point together again. */
  lemma Base64Digits(c: nat)
    ensures c == c / 64 * 64 + c % 64
    ensures c == c / 4096 * 4096 + c / 64 % 64 * 64 + c % 64
    ensures c == c / 262144 * 262144 + c / 4096 % 64 * 4096 + c / 64 % 64 * 64 + c % 64
  {
    assert c / 4096 == c / 64 / 64;
    assert c / 262144 == c / 4096 / 64;
  }

  lemma DecodeTwo(c: nat, b: Bytes)
    requires 0x80 <= c < 0x800 && |b| >= 2 && b[0] == 0xC0 + c / 64 && b[1] == 0x80 + c % 64
    ensures DecodeOne(b) == Some(Decoded(c, 2))
  {
    Base64Digits(c);
  }

  lemma DecodeThree(c: nat, b: Bytes)
    requires 0x800 <= c < 0x10000 && IsScalar(c) && |b| >= 3
    requires b[0] == 0xE0 + c / 4096 && b[1] == 0x80 + c / 64 % 64 && b[2] == 0x80 + c % 64
    ensures DecodeOne(b) == Some(Decoded(c, 3))
  {
    Base64Digits(c);
  }

  lemma DecodeFour(c: nat, b: Bytes)
    requires 0x10000 <= c && IsScalar(c) && |b| >= 4
    requires b[0] == 0xF0 + c / 262144 && b[1] == 0x80 + c / 4096 % 64
    requires b[2] == 0x80 + c / 64 % 64 && b[3] == 0x80 + c % 64
    ensures DecodeOne(b) == Some(Decoded(c, 4))
  {
    Base64Digits(c);
  }

  lemma DecodeUtf8(c: nat, rest: Bytes)
    requires IsScalar(c)
    ensures DecodeOne(Utf8(c) + rest) == Some(Decoded(c, |Utf8(c)|))
  {
    Prefix(Utf8(c), rest);
    if 0x80 <= c < 0x800 {
      DecodeTwo(c, Utf8(c) + rest);
    } else if 0x800 <= c < 0x10000 {
      DecodeThree(c, Utf8(c) + rest);
    } else if 0x10000 <= c {
      DecodeFour(c, Utf8(c) + rest);
    }
  }

  lemma {:induction false} Utf8RoundTrip(text: Text)
    requires Utf8All(text).Some?
    ensures Utf8Decode(Utf8All(text).value) == Some(text)
  {
    if text != [] {
      var rest := Utf8All(text[1..]).value;
      Utf8RoundTrip(text[1..]);
      DecodeUtf8(text[0], rest);
      assert (Utf8(text[0]) + rest)[|Utf8(text[0])|..] == rest;
      assert text == [text[0]] + text[1..];
    }
  }

  lemma UnpercentOne(b: nat, rest: Text)
    requires b < 256
    ensures Unpercent(Percent(b) + rest) ==
      if Unpercent(rest).None? then None else Some([b] + Unpercent(rest).value)
  {
    HexRoundTrip(b / 16);
    HexRoundTrip(b % 16);
    var key := Percent(b) + rest;
    Prefix(Percent(b), rest);
    assert key[3..] == rest;
  }

  lemma HexRoundTrip(d: nat)
    requires d < 16
    ensures HexValue(HexDigit(d)) == Some(d)
  {
  }

  lemma {:induction false} UnpercentBytes(b: Bytes, rest: Text)
    requires forall k :: 0 <= k < |b| ==> b[k] < 256
    requires Unpercent(rest).Some?
    ensures Unpercent(PercentAll(b) + rest) == Some(b + Unpercent(rest).value)
  {
    if b == [] {
      assert PercentAll(b) + rest == rest;
      assert b + Unpercent(rest).value == Unpercent(rest).value;
    } else {
      UnpercentBytes(b[1..], rest);
      var more := PercentAll(b[1..]) + rest;
      assert PercentAll(b) + rest == Percent(b[0]) + more;
      hide PercentAll, Unpercent, Percent;
      UnpercentOne(b[0], more);
      assert [b[0]] + (b[1..] + Unpercent(rest).value) == b + Unpercent(rest).value;
    }
  }

  /** Percent-decoding a sanitized key gives the text's UTF-8 bytes. */
  lemma {:induction false} UnpercentSanitized(text: Text)
    ensures Sanitized(text).Some? <==> Utf8All(text).Some?
    ensures Sanitized(text).Some? ==> Unpercent(Sanitized(text).value) == Utf8All(text)
  {
    if text != [] && IsScalar(text[0]) {
      UnpercentSanitized(text[1..]);
      if Sanitized(text[1..]).Some? {
        var c, rest := text[0], Sanitized(text[1..]).value;
        if PassThrough(c) {
          assert ([c] + rest)[0] == c && ([c] + rest)[1..] == rest;
          assert Utf8(c) == [c];
        } else {
          UnpercentBytes(Utf8(c), rest);
        }
      }
    }
  }

  /** Decoding undoes sanitizing. */
  lemma SanitizeRoundTrip(text: Text)
    requires Sanitized(text).Some?
    ensures Unpercent(Sanitized(text).value).Some?
    ensures Utf8Decode(Unpercent(Sanitized(text).value).value) == Some(text)
  {
    UnpercentSanitized(text);
    Utf8RoundTrip(text);
  }

  /** Different texts never share a sanitized key. */
  lemma SanitizeInjective(a: Text, b: Text)
    requires Sanitized(a).Some? && Sanitized(a) == Sanitized(b)
    ensures a == b
  {
    SanitizeRoundTrip(a);
    SanitizeRoundTrip(b);
  }

  /** Sanitizing fails exactly on text with a lone surrogate or no code point. */
  lemma {:induction false} SanitizeTotal(text: Text)
    ensures Sanitized(text).Some? <==>
      forall k :: 0 <= k < |text| ==> text[k] < 0xD800 || 0xE000 <= text[k] <= 0x10FFFF
  {
    if text != [] {
      SanitizeTotal(text[1..]);
      if Sanitized(text).Some? {
        forall k | 0 <= k < |text| ensures IsScalar(text[k]) {
          if k > 0 { assert text[k] == text[1..][k - 1]; }
        }
      } else if IsScalar(text[0]) {
        var k :| 0 <= k < |text[1..]| && !IsScalar(text[1..][k]);
        assert text[1..][k] == text[k + 1];
      }
    }
  }
}
