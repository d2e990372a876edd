/** Base64 as `btoa`, `atob` and Python's `base64` have it, and the base64url pair of the service worker. */
module Base64 {
  import opened Options

  type Byte = n: int | 0 <= n < 256
  type Sextet = n: int | 0 <= n < 64

  function Symbol(v: Sextet): (c: char)
    ensures ValueOf(c) == Some(v) && c != '='
  {
    if v < 26 then ('A' as int + v) as char
    else if v < 52 then ('a' as int + v - 26) as char
    else if v < 62 then ('0' as int + v - 52) as char
    else if v == 62 then '+' else '/'
  }

  function ValueOf(c: char): Option<Sextet> {
    if 'A' <= c <= 'Z' then Some(c as int - 'A' as int)
    else if 'a' <= c <= 'z' then Some(c as int - 'a' as int + 26)
    else if '0' <= c <= '9' then Some(c as int - '0' as int + 52)
    else if c == '+' then Some(62)
    else if c == '/' then Some(63)
    else None
  }

  /** The symbols of the bytes, without padding. */
  function Symbols(bytes: seq<Byte>): string {
    if bytes == [] then ""
    else if |bytes| == 1 then [Symbol(bytes[0] / 4), Symbol(bytes[0] % 4 * 16)]
    else if |bytes| == 2 then
      [Symbol(bytes[0] / 4), Symbol(bytes[0] % 4 * 16 + bytes[1] / 16), Symbol(bytes[1] % 16 * 4)]
    else
      [Symbol(bytes[0] / 4), Symbol(bytes[0] % 4 * 16 + bytes[1] / 16),
       Symbol(bytes[1] % 16 * 4 + bytes[2] / 64), Symbol(bytes[2] % 64)]
      + Symbols(bytes[3..])
  }

  function Padding(n: nat): (p: string)
    ensures |p| == n && forall c | c in p :: c == '='
  {
    seq(n, _ => '=')
  }

  /** How much padding makes the length a multiple of four. */
  function Missing(length: nat): nat {
    (4 - length % 4) % 4
  }

  /** `btoa`, and `base64.b64encode` */
  function Encode(bytes: seq<Byte>): string {
    Symbols(bytes) + Padding(Missing(|Symbols(bytes)|))
  }

  /** The bytes of symbols without padding; bits left over are dropped. */
  function Bytes(symbols: string): Option<seq<Byte>> {
    if symbols == "" then Some([])
    else if |symbols| == 1 then None
    else
      var a, b := ValueOf(symbols[0]), ValueOf(symbols[1]);
      if a.None? || b.None? then None
      else
        var first := a.value * 4 + b.value / 16;
        if |symbols| == 2 then Some([first])
        else
          var c := ValueOf(symbols[2]);
          if c.None? then None
          else
            var second := b.value % 16 * 16 + c.value / 4;
            if |symbols| == 3 then Some([first, second])
            else
              var d, rest := ValueOf(symbols[3]), Bytes(symbols[4..]);
              if d.None? || rest.None? then None
              else Some([first, second, c.value % 4 * 64 + d.value] + rest.value)
  }

  /** The text without the padding at its end, at most two characters. */
  function Unpadded(text: string): string {
    var n := |text|;
    if n >= 2 && text[n - 1] == '=' && text[n - 2] == '=' then text[..n - 2]
    else if n >= 1 && text[n - 1] == '=' then text[..n - 1]
    else text
  }

  /** `atob`, and `base64.b64decode`, of a text whose length is a multiple of four. */
  function Decode(text: string): Option<seq<Byte>> {
    if |text| % 4 != 0 then None else Bytes(Unpadded(text))
  }

  /** Three bytes are four sextets. */
  lemma Bits(a: Byte, b: Byte, c: Byte)
    ensures a / 4 * 4 + (a % 4 * 16 + b / 16) / 16 == a
    ensures (a % 4 * 16 + b / 16) % 16 * 16 + (b % 16 * 4 + c / 64) / 4 == b
    ensures (b % 16 * 4 + c / 64) % 4 * 64 + c % 64 == c
  {}

  lemma GroupRead(a: Byte, b: Byte, c: Byte, rest: string, tail: seq<Byte>)
    requires Bytes(rest) == Some(tail)
    ensures
      Bytes([Symbol(a / 4), Symbol(a % 4 * 16 + b / 16), Symbol(b % 16 * 4 + c / 64), Symbol(c % 64)] + rest)
      == Some([a, b, c] + tail)
  {
    Bits(a, b, c);
    var s := [Symbol(a / 4), Symbol(a % 4 * 16 + b / 16), Symbol(b % 16 * 4 + c / 64), Symbol(c % 64)] + rest;
    assert s[4..] == rest;
  }

  lemma {:induction false} SymbolsRead(bytes: seq<Byte>)
    ensures Bytes(Symbols(bytes)) == Some(bytes)
  {
    if |bytes| >= 3 {
      SymbolsRead(bytes[3..]);
      GroupRead(bytes[0], bytes[1], bytes[2], Symbols(bytes[3..]), bytes[3..]);
      assert bytes == [bytes[0], bytes[1], bytes[2]] + bytes[3..];
    } else if |bytes| == 2 {
      Bits(bytes[0], bytes[1], 0);
      assert bytes == [bytes[0], bytes[1]];
    } else if |bytes| == 1 {
      Bits(bytes[0], 0, 0);
      assert bytes == [bytes[0]];
    }
  }

  /** The value of a symbol by its place in the alphabet of section 4 of RFC 4648. */
  function Place(c: char): int {
    if 'A' <= c <= 'Z' then c as int - 'A' as int
    else if 'a' <= c <= 'z' then 26 + (c as int - 'a' as int)
    else if '0' <= c <= '9' then 52 + (c as int - '0' as int)
    else if c == '+' then 62
    else if c == '/' then 63
    else -1
  }

  /** The symbols start with those of the first group of bytes: three bytes and four symbols are the same 24 bits;
      one or two bytes are the first bits of two or three symbols, and the rest of these is zero. */
  predicate FirstBits(s: string, bytes: seq<Byte>)
    requires bytes != []
  {
    var a: int := bytes[0];
    if |bytes| == 1 then |s| == 2 && Place(s[0]) * 64 + Place(s[1]) == a * 16
    else
      var b: int := bytes[1];
      if |bytes| == 2 then |s| == 3 && (Place(s[0]) * 64 + Place(s[1])) * 64 + Place(s[2]) == (a * 256 + b) * 4
      else
        var c: int := bytes[2];
        |s| >= 4
        && ((Place(s[0]) * 64 + Place(s[1])) * 64 + Place(s[2])) * 64 + Place(s[3]) == (a * 256 + b) * 256 + c
  }

  lemma SymbolPlace(v: Sextet)
    ensures Place(Symbol(v)) == v
  {}

  lemma GroupBits(bytes: seq<Byte>)
    requires bytes != []
    ensures FirstBits(Symbols(bytes), bytes)
  {
    var a: int, b: int := bytes[0], if |bytes| > 1 then bytes[1] else 0;
    var c: int := if |bytes| > 2 then bytes[2] else 0;
    SymbolPlace(a / 4);
    SymbolPlace(a % 4 * 16 + b / 16);
    SymbolPlace(b % 16 * 4 + c / 64);
    SymbolPlace(c % 64);
    assert a % 4 * 16 + 0 / 16 == a % 4 * 16 && b % 16 * 4 + 0 / 64 == b % 16 * 4;
  }

  /** Every group of three bytes has the four symbols that start at four times its number. */
  lemma {:induction false} SymbolBits(bytes: seq<Byte>, k: nat)
    requires 3 * k < |bytes|
    ensures 4 * k <= |Symbols(bytes)| && FirstBits(Symbols(bytes)[4 * k..], bytes[3 * k..])
  {
    if k == 0 {
      GroupBits(bytes);
      assert bytes[0..] == bytes && Symbols(bytes)[0..] == Symbols(bytes);
    } else {
      SymbolBits(bytes[3..], k - 1);
      assert Symbols(bytes)[4..] == Symbols(bytes[3..]);
      assert Symbols(bytes)[4 * k..] == Symbols(bytes)[4..][4 * (k - 1)..];
      assert bytes[3 * k..] == bytes[3..][3 * (k - 1)..];
    }
  }

  predicate AllSymbols(s: string) {
    forall i | 0 <= i < |s| :: ValueOf(s[i]).Some?
  }

  lemma {:induction false} SymbolsLength(bytes: seq<Byte>)
    ensures |Symbols(bytes)| == |bytes| / 3 * 4 + if |bytes| % 3 == 0 then 0 else |bytes| % 3 + 1
  {
    if |bytes| >= 3 {
      SymbolsLength(bytes[3..]);
      var n := |bytes| - 3;
      assert |bytes[3..]| == n && (n + 3) / 3 == n / 3 + 1 && (n + 3) % 3 == n % 3;
    }
  }

  lemma {:induction false} SymbolsValued(bytes: seq<Byte>)
    ensures AllSymbols(Symbols(bytes))
  {
    if |bytes| >= 3 {
      SymbolsValued(bytes[3..]);
      var s, rest := Symbols(bytes), Symbols(bytes[3..]);
      forall i | 0 <= i < |s| ensures ValueOf(s[i]).Some? {
        if i >= 4 { assert s[i] == rest[i - 4]; }
      }
    }
  }

  lemma SymbolsShape(bytes: seq<Byte>)
    ensures |Symbols(bytes)| % 4 != 1 && AllSymbols(Symbols(bytes))
  {
    SymbolsLength(bytes);
    SymbolsValued(bytes);
  }

  lemma UnpaddedSymbols(s: string, n: nat)
    requires AllSymbols(s) && n <= 2
    ensures Unpadded(s + Padding(n)) == s
  {
    var text := s + Padding(n);
    assert text[..|s|] == s;
    assert forall i | |s| <= i < |text| :: text[i] == Padding(n)[i - |s|];
  }

  lemma MissingAfter(length: nat, stripped: nat)
    requires length % 4 != 1 && stripped <= Missing(length)
    ensures Missing(length) <= 2 && (length + Missing(length)) % 4 == 0
    ensures Missing(length + Missing(length) - stripped) == stripped
  {}

  /** Padding that is missing is put back as it was. */
  lemma PaddingRestored(s: string, stripped: nat)
    requires |s| % 4 != 1 && stripped <= Missing(|s|)
    ensures
      var text := s + Padding(Missing(|s|));
      var cut := text[..|text| - stripped];
      |text| % 4 == 0 && cut + Padding(Missing(|cut|)) == text
  {
    MissingAfter(|s|, stripped);
    PaddingBack(s, Missing(|s|), stripped);
  }

  lemma PaddingBack(s: string, n: nat, stripped: nat)
    requires stripped <= n
    ensures var text := s + Padding(n); text[..|text| - stripped] + Padding(stripped) == text
  {
    var text := s + Padding(n);
    var back := text[..|text| - stripped] + Padding(stripped);
    forall i | |s| <= i < |text| ensures back[i] == text[i] {
      assert text[i] == Padding(n)[i - |s|] == '=';
      if i >= |text| - stripped { assert back[i] == Padding(stripped)[i - (|text| - stripped)] == '='; }
    }
  }

  /** Decoding what was encoded gives the bytes back. */
  lemma EncodeDecodes(bytes: seq<Byte>)
    ensures Decode(Encode(bytes)) == Some(bytes) && |Encode(bytes)| % 4 == 0
  {
    var s := Symbols(bytes);
    SymbolsShape(bytes);
    SymbolsRead(bytes);
    PaddedDecodes(s, bytes);
  }

  lemma PaddedDecodes(s: string, bytes: seq<Byte>)
    requires |s| % 4 != 1 && AllSymbols(s) && Bytes(s) == Some(bytes)
    ensures var text := s + Padding(Missing(|s|)); Decode(text) == Some(bytes) && |text| % 4 == 0
  {
    UnpaddedSymbols(s, Missing(|s|));
    assert (|s| + Missing(|s|)) % 4 == 0;
  }

  // ------------------------------------------------------------------ the service worker's pair

  /** `text.replace(from, to)` of single characters. */
  function Replaced(text: string, from: char, to: char): (r: string)
    ensures |r| == |text|
    ensures forall i | 0 <= i < |text| :: r[i] == if text[i] == from then to else text[i]
  {
    seq(|text|, i requires 0 <= i < |text| => if text[i] == from then to else text[i])
  }

  /** `text.replace(/=+$/, "")` */
  function Stripped(text: string): string {
    if text != "" && text[|text| - 1] == '=' then Stripped(text[..|text| - 1]) else text
  }

  /** The text is base64url without padding, as section 5 of RFC 4648 has it. */
  predicate IsBase64Url(text: string) {
    forall i | 0 <= i < |text| :: IsUrlSymbol(text[i])
  }

  predicate IsUrlSymbol(c: char) {
    'A' <= c <= 'Z' || 'a' <= c <= 'z' || '0' <= c <= '9' || c == '-' || c == '_'
  }

  function ToUrl(text: string): (r: string)
    ensures |r| == |text|
  {
    Replaced(Replaced(text, '+', '-'), '/', '_')
  }

  function FromUrl(text: string): (r: string)
    ensures |r| == |text|
  {
    Replaced(Replaced(text, '-', '+'), '_', '/')
  }

  method ArrayBufferToBase64Url(bytes: array<Byte>) returns (text: string)
    ensures text == ToUrl(Symbols(bytes[..])) && IsBase64Url(text)
  {
    var binary: seq<Byte> := [];
    for i := 0 to bytes.Length
      invariant binary == bytes[..i]
    {
      binary := binary + [bytes[i]];
    }
    assert bytes[..bytes.Length] == bytes[..];
    text := Stripped(ToUrl(Encode(binary)));
    SymbolsShape(binary);
    UrlStripped(Symbols(binary), Missing(|Symbols(binary)|));
    UrlShape(Symbols(binary));
  }

  /** `urlBase64ToUint8Array`; none is the error of `atob`. */
  method UrlBase64ToUint8Array(base64url: string) returns (out: Option<array<Byte>>)
    ensures var decoded := Decode(FromUrl(base64url + Padding(Missing(|base64url|))));
      match out
      case None => decoded.None?
      case Some(a) => fresh(a) && decoded == Some(a[..])
  {
    var base64 := FromUrl(base64url + Padding(Missing(|base64url|)));
    var raw := Decode(base64);
    if raw.None? { return None; }
    var a := new Byte[|raw.value|](_ => 0);
    for i := 0 to |raw.value|
      invariant a[..i] == raw.value[..i]
    {
      a[i] := raw.value[i];
    }
    assert a[..] == raw.value;
    out := Some(a);
  }

  lemma UrlShape(s: string)
    requires AllSymbols(s)
    ensures IsBase64Url(ToUrl(s)) && FromUrl(ToUrl(s)) == s
  {
    var url := ToUrl(s);
    forall i | 0 <= i < |s|
      ensures FromUrl(url)[i] == s[i] && url[i] == if s[i] == '+' then '-' else if s[i] == '/' then '_' else s[i]
    {
      assert ValueOf(s[i]).Some?;
    }
    forall i | 0 <= i < |url| ensures IsUrlSymbol(url[i]) { assert ValueOf(s[i]).Some?; }
    assert FromUrl(url) == s;
  }

  /** In the url form the last two symbols are a dash and an underscore. */
  lemma UrlSymbols(s: string, i: nat)
    requires AllSymbols(s) && i < |s|
    ensures
      var c := ToUrl(s)[i];
      match Place(s[i]) case 62 => c == '-' case 63 => c == '_' case _ => c == s[i]
  {
    assert ValueOf(s[i]).Some?;
  }

  lemma {:induction false} StrippedPadding(s: string, n: nat)
    requires s == "" || s[|s| - 1] != '='
    ensures Stripped(s + Padding(n)) == s
  {
    if n == 0 {
      assert s + Padding(n) == s;
    } else {
      StrippedPadding(s, n - 1);
      var text := s + Padding(n);
      assert text[|text| - 1] == Padding(n)[n - 1] && text[..|text| - 1] == s + Padding(n - 1);
    }
  }

  lemma UrlStripped(s: string, n: nat)
    requires AllSymbols(s)
    ensures Stripped(ToUrl(s + Padding(n))) == ToUrl(s)
  {
    var t := ToUrl(s);
    assert ToUrl(s + Padding(n)) == t + Padding(n) by {
      forall i | 0 <= i < |s + Padding(n)| ensures ToUrl(s + Padding(n))[i] == (t + Padding(n))[i] {
        if i >= |s| { assert Padding(n)[i - |s|] in Padding(n); }
      }
    }
    StrippedPadding(t, n);
  }

  /** Decoding an encoded array with the service worker's pair gives its bytes back. */
  lemma UrlRoundTrip(bytes: seq<Byte>)
    ensures
      var text := ToUrl(Symbols(bytes));
      Decode(FromUrl(text + Padding(Missing(|text|)))) == Some(bytes)
  {
    var s := Symbols(bytes);
    var n := Missing(|s|);
    SymbolsShape(bytes);
    UrlShape(s);
    assert FromUrl(ToUrl(s) + Padding(n)) == s + Padding(n) by {
      forall i | 0 <= i < |s| + n ensures FromUrl(ToUrl(s) + Padding(n))[i] == (s + Padding(n))[i] {
        if i >= |s| { assert Padding(n)[i - |s|] in Padding(n); } else { assert FromUrl(ToUrl(s))[i] == s[i]; }
      }
    }
    EncodeDecodes(bytes);
  }
}
