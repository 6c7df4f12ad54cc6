/**
 Clipboard text on the wire: CRLF line ends, UTF-16LE, NUL
 (linrdp/src/clipboard.rs: `text_to_crlf`, `text_to_utf16_crlf`,
 `decode_utf16_lossy`; crates/ironrdp-pdu/src/utf16.rs: `read_utf16_string`).
 */
module ClipText {
  import opened Prelude

  // ----- Line ends -----

  /** How much of a text its first line end takes, if it starts with one. */
  function LineEnd(text: string): nat {
    if text == "" then 0
    else if text[0] == '\n' then 1
    else if text[0] == '\r' then if |text| > 1 && text[1] == '\n' then 2 else 1
    else 0
  }

  /** The text with each line end (LF, CR or CRLF) written as `end`. */
  function WithLineEnds(text: string, end: string): string {
    if text == "" then ""
    else if LineEnd(text) > 0 then end + WithLineEnds(text[LineEnd(text)..], end)
    else [text[0]] + WithLineEnds(text[1..], end)
  }

  const CRLF: string := "\r\n"

  function Piece(rest: string, end: string): (string, nat)
    requires rest != ""
  {
    if LineEnd(rest) > 0 then (end, LineEnd(rest)) else ([rest[0]], 1)
  }

  /** One round of the loop: what it emits and how far it goes. */
  lemma NextPiece(rest: string, end: string)
    requires rest != ""
    ensures Piece(rest, end).1 <= |rest|
    ensures WithLineEnds(rest, end) == Piece(rest, end).0 + WithLineEnds(rest[Piece(rest, end).1..], end)
  {
  }

  lemma Regroup(a: string, b: string, c: string)
    ensures a + (b + c) == a + b + c
  {
  }

  /** The loop's body: `chars.next()` and, for a CR, the peek at an LF. */
  method TakePiece(text: string, i: nat, end: string) returns (piece: string, next: nat)
    requires i < |text|
    ensures i < next <= |text| && (piece, next - i) == Piece(text[i..], end)
  {
    var c := text[i];
    piece, next := end, i + 1;
    if c != '\n' && c != '\r' {
      piece := [c];
    } else if c == '\r' && next < |text| && text[next] == '\n' {
      next := next + 1;
    }
  }

  /** The loop of `text_to_crlf`. */
  method RewriteLineEnds(text: string, end: string) returns (out: string)
    ensures out == WithLineEnds(text, end)
  {
    out := "";
    var i := 0;
    assert text[0..] == text;
    while i < |text|
      invariant i <= |text| && out + WithLineEnds(text[i..], end) == WithLineEnds(text, end)
    {
      var piece, next := TakePiece(text, i, end);
      NextPiece(text[i..], end);
      assert text[i..][next - i..] == text[next..];
      Regroup(out, piece, WithLineEnds(text[next..], end));
      out, i := out + piece, next;
    }
  }

  /** `text_to_crlf`. */
  method TextToCrlf(text: string) returns (out: string)
    ensures out == WithLineEnds(text, CRLF) && NoBareLineEnd(out)
  {
    out := RewriteLineEnds(text, CRLF);
    CrlfHasNoBare(text);
  }

  predicate Paired(s: string, i: nat)
    requires i < |s|
  {
    (s[i] == '\r' ==> i + 1 < |s| && s[i + 1] == '\n') && (s[i] == '\n' ==> i > 0 && s[i - 1] == '\r')
  }

  /** Every CR is followed by LF and every LF follows CR. */
  ghost predicate NoBareLineEnd(s: string) {
    forall i :: 0 <= i < |s| ==> Paired(s, i)
  }

  lemma NoBareAppend(a: string, b: string)
    requires NoBareLineEnd(a) && NoBareLineEnd(b)
    ensures NoBareLineEnd(a + b)
  {
    forall i | 0 <= i < |a + b| ensures Paired(a + b, i) {
      assert if i < |a| then Paired(a, i) else Paired(b, i - |a|);
    }
  }

  lemma {:induction false} CrlfHasNoBare(text: string)
    ensures NoBareLineEnd(WithLineEnds(text, CRLF))
  {
    if text != "" {
      if LineEnd(text) > 0 {
        CrlfHasNoBare(text[LineEnd(text)..]);
        NoBareAppend(CRLF, WithLineEnds(text[LineEnd(text)..], CRLF));
      } else {
        CrlfHasNoBare(text[1..]);
        NoBareAppend([text[0]], WithLineEnds(text[1..], CRLF));
      }
    }
  }

  lemma StartsWithCrlf(rest: string, end: string)
    ensures WithLineEnds(CRLF + rest, end) == end + WithLineEnds(rest, end)
  {
    assert LineEnd(CRLF + rest) == 2 && (CRLF + rest)[2..] == rest;
  }

  lemma StartsPlain(c: char, rest: string, end: string)
    requires c != '\r' && c != '\n'
    ensures WithLineEnds([c] + rest, end) == [c] + WithLineEnds(rest, end)
  {
    assert ([c] + rest)[1..] == rest;
  }

  /** Rewriting the line ends twice is rewriting them once, to the later form. */
  lemma {:induction false} LineEndsTwice(text: string, end: string)
    ensures WithLineEnds(WithLineEnds(text, CRLF), end) == WithLineEnds(text, end)
  {
    if text != "" {
      if LineEnd(text) > 0 {
        var rest := text[LineEnd(text)..];
        LineEndsTwice(rest, end);
        StartsWithCrlf(WithLineEnds(rest, CRLF), end);
      } else {
        LineEndsTwice(text[1..], end);
        StartsPlain(text[0], WithLineEnds(text[1..], CRLF), end);
      }
    }
  }

  lemma CrlfIdempotent(text: string)
    ensures WithLineEnds(WithLineEnds(text, CRLF), CRLF) == WithLineEnds(text, CRLF)
  {
    LineEndsTwice(text, CRLF);
  }

  /** `replace("\r\n", "\n")`. */
  function Fold(s: string): string {
    if |s| >= 2 && s[0] == '\r' && s[1] == '\n' then "\n" + Fold(s[2..])
    else if s == "" then ""
    else [s[0]] + Fold(s[1..])
  }

  lemma {:induction false} FoldCrlf(text: string)
    ensures Fold(WithLineEnds(text, CRLF)) == WithLineEnds(text, "\n")
  {
    if text != "" {
      if LineEnd(text) > 0 {
        var rest := text[LineEnd(text)..];
        FoldCrlf(rest);
        assert (CRLF + WithLineEnds(rest, CRLF))[2..] == WithLineEnds(rest, CRLF);
      } else {
        FoldCrlf(text[1..]);
        assert ([text[0]] + WithLineEnds(text[1..], CRLF))[1..] == WithLineEnds(text[1..], CRLF);
      }
    }
  }

  // ----- UTF-16 -----

  /** A 16-bit code unit. */
  type Unit = u16

  function Encode(c: char): seq<Unit> {
    var n := c as int;
    if n < 0x1_0000 then [n] else [0xD800 + (n - 0x1_0000) / 0x400, 0xDC00 + (n - 0x1_0000) % 0x400]
  }

  function EncodeUtf16(s: string): seq<Unit> {
    if s == "" then [] else Encode(s[0]) + EncodeUtf16(s[1..])
  }

  predicate High(u: Unit) { 0xD800 <= u < 0xDC00 }

  predicate Low(u: Unit) { 0xDC00 <= u < 0xE000 }

  function Join(high: int, low: int): int { 0x1_0000 + (high - 0xD800) * 0x400 + (low - 0xDC00) }

  /** The first character and how many units it takes; a lone surrogate is
      U+FFFD and marked bad. */
  function DecodeFirst(units: seq<Unit>): (char, nat, bool)
    requires units != []
    ensures 0 < DecodeFirst(units).1 <= |units|
  {
    if High(units[0]) && |units| > 1 && Low(units[1]) then
      (Join(units[0], units[1]) as char, 2, true)
    else if High(units[0]) || Low(units[0]) then ('\U{FFFD}', 1, false)
    else (units[0] as char, 1, true)
  }

  /** `String::from_utf16`. */
  function FromUtf16(units: seq<Unit>): Option<string>
    decreases |units|
  {
    if units == [] then Some("")
    else
      var (c, n, good) := DecodeFirst(units);
      var rest := FromUtf16(units[n..]);
      if good && rest.Some? then Some([c] + rest.value) else None
  }

  /** `String::from_utf16_lossy`. */
  function FromUtf16Lossy(units: seq<Unit>): string
    decreases |units|
  {
    if units == [] then ""
    else
      var (c, n, _) := DecodeFirst(units);
      [c] + FromUtf16Lossy(units[n..])
  }

  /** The fallback agrees with the strict reading wherever that exists. */
  lemma {:induction false} LossyExtendsStrict(units: seq<Unit>)
    ensures FromUtf16(units).Some? ==> FromUtf16Lossy(units) == FromUtf16(units).value
    decreases |units|
  {
    if units != [] {
      LossyExtendsStrict(units[DecodeFirst(units).1..]);
    }
  }

  lemma DecodeEncoded(c: char, rest: seq<Unit>)
    ensures Encode(c) + rest != [] && DecodeFirst(Encode(c) + rest) == (c, |Encode(c)|, true)
  {
    var n := c as int;
    if n >= 0x1_0000 {
      assert n - 0x1_0000 == (n - 0x1_0000) / 0x400 * 0x400 + (n - 0x1_0000) % 0x400;
    }
  }

  lemma {:induction false} Utf16RoundTrip(s: string)
    ensures FromUtf16(EncodeUtf16(s)) == Some(s)
  {
    if s != "" {
      DecodeEncoded(s[0], EncodeUtf16(s[1..]));
      assert DecodeFirst(EncodeUtf16(s)) == (s[0], |Encode(s[0])|, true);
      Utf16RoundTrip(s[1..]);
      assert EncodeUtf16(s)[|Encode(s[0])|..] == EncodeUtf16(s[1..]);
      assert s == [s[0]] + s[1..];
    }
  }

  // ----- Bytes -----

  function ToBytes(units: seq<Unit>): seq<byte> {
    if units == [] then [] else [units[0] % 256, units[0] / 256] + ToBytes(units[1..])
  }

  function Word(low: int, high: int): int { low + 256 * high }

  /** Whole little-endian units up to the first NUL. */
  function ReadUnits(data: seq<byte>): seq<Unit> {
    if |data| < 2 || Word(data[0], data[1]) == 0 then []
    else [Word(data[0], data[1])] + ReadUnits(data[2..])
  }

  /** `read_utf16_string`, or the lossy reading where that fails. */
  function ReadText(data: seq<byte>): string {
    var strict := FromUtf16(ReadUnits(data));
    if strict.Some? then strict.value else FromUtf16Lossy(ReadUnits(data))
  }

  function BeforeNul(s: string): string {
    if s == "" || s[0] == '\0' then "" else [s[0]] + BeforeNul(s[1..])
  }

  lemma ReadUnit(u: Unit, rest: seq<byte>)
    ensures ReadUnits([u % 256, u / 256] + rest) == if u == 0 then [] else [u] + ReadUnits(rest)
  {
    assert ([u % 256, u / 256] + rest)[2..] == rest;
  }

  lemma ReadNext(units: seq<Unit>, tail: seq<byte>)
    requires units != []
    ensures ReadUnits(ToBytes(units) + tail)
            == if units[0] == 0 then [] else [units[0]] + ReadUnits(ToBytes(units[1..]) + tail)
  {
    ReadUnit(units[0], ToBytes(units[1..]) + tail);
    assert ToBytes(units) + tail == [units[0] % 256, units[0] / 256] + (ToBytes(units[1..]) + tail);
  }

  lemma ReadChar(c: char, rest: seq<Unit>, tail: seq<byte>)
    ensures ReadUnits(ToBytes(Encode(c) + rest) + tail)
            == if c == '\0' then [] else Encode(c) + ReadUnits(ToBytes(rest) + tail)
  {
    var units, n := Encode(c) + rest, c as int;
    ReadNext(units, tail);
    if n < 0x1_0000 {
      assert units[1..] == rest;
    } else {
      ReadNext(units[1..], tail);
      assert units[1..][1..] == rest;
    }
  }

  lemma {:induction false} ReadBack(s: string)
    ensures ReadUnits(ToBytes(EncodeUtf16(s)) + [0, 0]) == EncodeUtf16(BeforeNul(s))
  {
    if s != "" {
      ReadChar(s[0], EncodeUtf16(s[1..]), [0, 0]);
      ReadBack(s[1..]);
      if s[0] != '\0' {
        assert BeforeNul(s)[1..] == BeforeNul(s[1..]);
      }
    }
  }

  // ----- The round trip -----

  /** `text_to_utf16_crlf`. */
  function Wire(text: string): seq<byte> { ToBytes(EncodeUtf16(WithLineEnds(text, CRLF))) + [0, 0] }

  /** The receiving side of `on_format_data_response`. */
  function Received(data: seq<byte>): string { Fold(ReadText(data)) }

  lemma {:induction false} NulCutsFirst(text: string)
    ensures BeforeNul(WithLineEnds(text, CRLF)) == WithLineEnds(BeforeNul(text), CRLF)
  {
    if text != "" && text[0] != '\0' {
      if LineEnd(text) > 0 {
        var rest := text[LineEnd(text)..];
        NulCutsFirst(rest);
        CutAfterLineEnd(text);
        assert (CRLF + WithLineEnds(rest, CRLF))[1..] == "\n" + WithLineEnds(rest, CRLF);
        assert (CRLF + WithLineEnds(rest, CRLF))[2..] == WithLineEnds(rest, CRLF);
      } else {
        NulCutsFirst(text[1..]);
        StartsPlain(text[0], BeforeNul(text[1..]), CRLF);
      }
    }
  }

  lemma CutAfterLineEnd(text: string)
    requires LineEnd(text) > 0
    ensures var rest := text[LineEnd(text)..];
            WithLineEnds(BeforeNul(text), CRLF) == CRLF + WithLineEnds(BeforeNul(rest), CRLF)
  {
    var cut, n := BeforeNul(text), LineEnd(text);
    if n == 2 {
      assert text[1..][1..] == text[2..];
    }
    assert cut == text[..n] + BeforeNul(text[n..]);
    assert LineEnd(cut) == n && cut[n..] == BeforeNul(text[n..]);
  }

  /** What arrives, for every text: what precedes its first NUL, every line end
      as LF. */
  lemma ReceivedIs(text: string)
    ensures Received(Wire(text)) == WithLineEnds(BeforeNul(text), "\n")
  {
    var crlf := WithLineEnds(text, CRLF);
    ReadBack(crlf);
    NulCutsFirst(text);
    Utf16RoundTrip(BeforeNul(crlf));
    FoldCrlf(BeforeNul(text));
  }

  lemma {:induction false} LfOnly(text: string)
    ensures '\r' !in WithLineEnds(text, "\n")
    ensures '\r' !in text ==> WithLineEnds(text, "\n") == text
  {
    if text != "" {
      if LineEnd(text) > 0 {
        LfOnly(text[LineEnd(text)..]);
      } else {
        LfOnly(text[1..]);
      }
    }
  }

  lemma {:induction false} NulFree(text: string)
    ensures '\0' !in BeforeNul(text) && ('\0' !in text ==> BeforeNul(text) == text)
  {
    if text != "" && text[0] != '\0' {
      NulFree(text[1..]);
    }
  }

  lemma {:induction false} NoNulAdded(text: string)
    requires '\0' !in text
    ensures '\0' !in WithLineEnds(text, "\n")
  {
    if text != "" {
      if LineEnd(text) > 0 {
        NoNulAdded(text[LineEnd(text)..]);
      } else {
        NoNulAdded(text[1..]);
      }
    }
  }

  /** A text comes back as it was exactly when it has neither CR nor NUL. */
  lemma TextRoundTripIff(text: string)
    ensures Received(Wire(text)) == text <==> '\r' !in text && '\0' !in text
  {
    ReceivedIs(text);
    LfOnly(BeforeNul(text));
    NulFree(text);
    NoNulAdded(BeforeNul(text));
  }

  // ----- The bytes on the wire -----

  /** Section 2.1 of RFC 2781: a character above U+FFFF is a high and a low
      surrogate that carry ten bits each, any other is itself. */
  lemma EncodeIs(c: char)
    ensures var n, units := c as int, Encode(c);
            if n < 0x1_0000 then units == [n]
            else |units| == 2 && 0xD800 <= units[0] < 0xDC00 && 0xDC00 <= units[1] < 0xE000
                 && n == 0x1_0000 + 1024 * (units[0] as int - 0xD800) + (units[1] as int - 0xDC00)
  {
  }

  predicate Ordinary(c: char) { c as int < 0xD800 && c != '\r' && c != '\n' }

  /** Two bytes for each ordinary character, low byte first, and a final NUL. */
  lemma {:induction false} WireIs(text: string, i: nat)
    requires (forall k :: 0 <= k < |text| ==> Ordinary(text[k])) && i <= |text|
    ensures |Wire(text)| == 2 * |text| + 2
    ensures var n := if i < |text| then text[i] as int else 0;
            Wire(text)[2 * i] == n % 256 && Wire(text)[2 * i + 1] == n / 256
    decreases |text|
  {
    if text == "" {
      assert Wire(text) == [0, 0];
    } else {
      WireNext(text);
      var rest := text[1..];
      assert forall k :: 0 <= k < |rest| ==> rest[k] == text[k + 1];
      WireIs(rest, if i > 0 then i - 1 else 0);
      if i > 0 { assert rest[..] == text[1..]; }
    }
  }

  lemma WireNext(text: string)
    requires text != "" && Ordinary(text[0])
    ensures var n := text[0] as int; Wire(text) == [n % 256, n / 256] + Wire(text[1..])
  {
    assert LineEnd(text) == 0;
    var rest := WithLineEnds(text[1..], CRLF);
    assert WithLineEnds(text, CRLF) == [text[0]] + rest;
    assert ([text[0]] + rest)[1..] == rest;
    assert EncodeUtf16([text[0]] + rest) == [text[0] as int] + EncodeUtf16(rest);
    assert ([text[0] as int] + EncodeUtf16(rest))[1..] == EncodeUtf16(rest);
  }

  /** A surrogate without its partner is read as U+FFFD and spoils no neighbour. */
  lemma LoneSurrogate(u: Unit, rest: seq<Unit>)
    requires Low(u) || (High(u) && (rest == [] || !Low(rest[0])))
    ensures FromUtf16([u] + rest).None? && FromUtf16Lossy([u] + rest) == ['\U{FFFD}'] + FromUtf16Lossy(rest)
  {
    assert ([u] + rest)[1..] == rest;
  }
}
