/** The browser's `btoa` and `atob`, which `toBase64URL` and `fromBase64URL`
    in src/utils/crypto.ts call.  `btoa` is the padded base64 encoding of
    section 4 of RFC 4648 over a "binary string" (one character per byte);
    `atob` is the WHATWG "forgiving-base64 decode": it removes ASCII
    whitespace, drops one or two trailing `=` when the length is a multiple
    of 4, rejects a length that is 1 modulo 4 or any character outside the
    standard alphabet, and discards the unused low bits of a final group. */
module Base64 {
  import opened Wrappers
  import opened Text

  type byte = b: int | 0 <= b < 256
  type sextet = v: int | 0 <= v < 64

  /** The 64 characters of the standard alphabet (section 4 of RFC 4648). */
  predicate IsStdSymbol(c: char) {
    'A' <= c <= 'Z' || 'a' <= c <= 'z' || '0' <= c <= '9' || c == '+' || c == '/'
  }

  predicate AllStd(s: string) { forall i :: 0 <= i < |s| ==> IsStdSymbol(s[i]) }

  function StdValue(c: char): sextet
    requires IsStdSymbol(c)
  {
    if 'A' <= c <= 'Z' then c as int - 'A' as int
    else if 'a' <= c <= 'z' then c as int - 'a' as int + 26
    else if '0' <= c <= '9' then c as int - '0' as int + 52
    else if c == '+' then 62
    else 63
  }

  /** The character for a 6-bit value; `StdValue` reads it back. */
  function StdSymbol(v: sextet): (c: char)
    ensures IsStdSymbol(c) && StdValue(c) == v
    ensures c != '='
  {
    if v < 26 then (v + 'A' as int) as char
    else if v < 52 then (v - 26 + 'a' as int) as char
    else if v < 62 then (v - 52 + '0' as int) as char
    else if v == 62 then '+'
    else '/'
  }

  lemma SymbolOfValue(c: char)
    requires IsStdSymbol(c)
    ensures StdSymbol(StdValue(c)) == c
  {
  }

  /** Number of characters that carry data for `n` bytes: four per full group
      of three, then two for one leftover byte and three for two. */
  function EncodedLength(n: nat): nat {
    4 * (n / 3) + (if n % 3 == 0 then 0 else n % 3 + 1)
  }

  /** The 6-bit groups of a byte sequence, most significant bits first; a
      final short group is filled with zero bits. */
  function Sextets(b: seq<byte>): (x: seq<sextet>)
    ensures |x| == EncodedLength(|b|) && |x| % 4 != 1
    decreases |b|
  {
    EncodedLengthMod(|b|);
    if |b| == 0 then []
    else if |b| == 1 then [b[0] / 4, (b[0] % 4) * 16]
    else if |b| == 2 then [b[0] / 4, (b[0] % 4) * 16 + b[1] / 16, (b[1] % 16) * 4]
    else [b[0] / 4, (b[0] % 4) * 16 + b[1] / 16, (b[1] % 16) * 4 + b[2] / 64, b[2] % 64] + Sextets(b[3..])
  }

  /** The bytes of a sequence of 6-bit groups: three per group of four; a
      final group of two gives one byte and of three gives two, and the bits
      left over are discarded. */
  function Unsextets(x: seq<sextet>): (b: seq<byte>)
    requires |x| % 4 != 1
    ensures EncodedLength(|b|) == |x|
    decreases |x|
  {
    if |x| == 0 then []
    else if |x| == 2 then [Byte0(x[0], x[1])]
    else if |x| == 3 then [Byte0(x[0], x[1]), Byte1(x[1], x[2])]
    else [Byte0(x[0], x[1]), Byte1(x[1], x[2]), Byte2(x[2], x[3])] + Unsextets(x[4..])
  }

  /** The three bytes a group of four 6-bit values decodes to. */
  function Byte0(v0: sextet, v1: sextet): byte { v0 * 4 + v1 / 16 }
  function Byte1(v1: sextet, v2: sextet): byte { (v1 % 16) * 16 + v2 / 4 }
  function Byte2(v2: sextet, v3: sextet): byte { (v2 % 4) * 64 + v3 }

  lemma GroupRoundTrip(b0: byte, b1: byte, b2: byte)
    ensures (b0 / 4) * 4 + ((b0 % 4) * 16 + b1 / 16) / 16 == b0
    ensures (((b0 % 4) * 16 + b1 / 16) % 16) * 16 + ((b1 % 16) * 4 + b2 / 64) / 4 == b1
    ensures (((b1 % 16) * 4 + b2 / 64) % 4) * 64 + b2 % 64 == b2
  {
    assert ((b0 % 4) * 16 + b1 / 16) / 16 == b0 % 4;
    assert ((b0 % 4) * 16 + b1 / 16) % 16 == b1 / 16;
    assert ((b1 % 16) * 4 + b2 / 64) / 4 == b1 % 16;
    assert ((b1 % 16) * 4 + b2 / 64) % 4 == b2 / 64;
  }

  /** Decoding the groups of an encoding gives back the bytes. */
  lemma {:induction false} UnsextetsOfSextets(b: seq<byte>)
    ensures Unsextets(Sextets(b)) == b
    decreases |b|
  {
    if |b| == 1 {
      GroupRoundTrip(b[0], 0, 0);
    } else if |b| == 2 {
      GroupRoundTrip(b[0], b[1], 0);
    } else if |b| >= 3 {
      UnsextetsOfSextets(b[3..]);
      FirstThree(b);
      ByteGroupStep(b[0], b[1], b[2], b[3..]);
    }
  }

  /** The inductive step of `UnsextetsOfSextets`: one group of three bytes in front. */
  lemma ByteGroupStep(b0: byte, b1: byte, b2: byte, rest: seq<byte>)
    requires Unsextets(Sextets(rest)) == rest
    ensures Unsextets(Sextets([b0, b1, b2] + rest)) == [b0, b1, b2] + rest
  {
    SextetsOfCons(b0, b1, b2, rest);
    GroupRoundTrip(b0, b1, b2);
    EncodedLengthMod(|rest|);
    UnsextetsOfGroup(b0 / 4, (b0 % 4) * 16 + b1 / 16, (b1 % 16) * 4 + b2 / 64, b2 % 64, Sextets(rest));
  }

  /** One unfolding of `Unsextets` on a leading full group. */
  lemma UnsextetsOfGroup(v0: sextet, v1: sextet, v2: sextet, v3: sextet, y: seq<sextet>)
    requires |y| % 4 != 1
    ensures |[v0, v1, v2, v3] + y| % 4 != 1
    ensures Unsextets([v0, v1, v2, v3] + y) == [Byte0(v0, v1), Byte1(v1, v2), Byte2(v2, v3)] + Unsextets(y)
  {
    var x := [v0, v1, v2, v3] + y;
    assert x[4..] == y;
    ModShift(|x|);
  }

  lemma FirstThree(b: seq<byte>)
    requires |b| >= 3
    ensures b == [b[0], b[1], b[2]] + b[3..]
  {
  }

  /** A sequence of groups is canonical when the bits a short final group
      carries beyond its bytes are zero, as an encoder writes them. */
  predicate Canonical(x: seq<sextet>) {
    (|x| % 4 == 2 ==> x[|x| - 1] % 16 == 0) && (|x| % 4 == 3 ==> x[|x| - 1] % 4 == 0)
  }

  lemma UngroupRoundTrip(v0: sextet, v1: sextet, v2: sextet, v3: sextet)
    ensures Byte0(v0, v1) / 4 == v0
    ensures (Byte0(v0, v1) % 4) * 16 + Byte1(v1, v2) / 16 == v1
    ensures (Byte1(v1, v2) % 16) * 4 + Byte2(v2, v3) / 64 == v2
    ensures Byte2(v2, v3) % 64 == v3
  {
  }

  /** Encoding the bytes of canonical groups gives back the groups. */
  lemma {:induction false} SextetsOfUnsextets(x: seq<sextet>)
    requires |x| % 4 != 1 && Canonical(x)
    ensures Sextets(Unsextets(x)) == x
    decreases |x|
  {
    if 2 <= |x| <= 3 {
      ShortGroupRoundTrip(x);
    } else if |x| >= 4 {
      var t := x[4..];
      assert |t| % 4 == |x| % 4;
      assert Canonical(t) by {
        if |t| > 0 { assert t[|t| - 1] == x[|x| - 1]; }
      }
      SextetsOfUnsextets(t);
      FullGroupStep(x);
    }
  }

  lemma ShortGroupRoundTrip(x: seq<sextet>)
    requires 2 <= |x| <= 3 && Canonical(x)
    ensures Sextets(Unsextets(x)) == x
  {
    if |x| == 2 {
      UngroupRoundTrip(x[0], x[1], 0, 0);
    } else {
      UngroupRoundTrip(x[0], x[1], x[2], 0);
    }
  }

  lemma FullGroupStep(x: seq<sextet>)
    requires |x| >= 4 && |x| % 4 != 1
    requires Sextets(Unsextets(x[4..])) == x[4..]
    ensures Sextets(Unsextets(x)) == x
  {
    UnsextetsUnfold(x);
    HeadGroup(x[0], x[1], x[2], x[3], Unsextets(x[4..]));
    FirstFour(x);
  }

  /** One unfolding of `Unsextets` on a full group. */
  lemma UnsextetsUnfold(x: seq<sextet>)
    requires |x| >= 4 && |x| % 4 != 1
    ensures |x[4..]| % 4 != 1
    ensures Unsextets(x) == [Byte0(x[0], x[1]), Byte1(x[1], x[2]), Byte2(x[2], x[3])] + Unsextets(x[4..])
  {
    ModShift(|x|);
  }

  lemma FirstFour(x: seq<sextet>)
    requires |x| >= 4
    ensures x == [x[0], x[1], x[2], x[3]] + x[4..]
  {
  }

  /** Encoding one decoded group in front of further bytes gives the group back in front. */
  lemma HeadGroup(v0: sextet, v1: sextet, v2: sextet, v3: sextet, u: seq<byte>)
    ensures Sextets([Byte0(v0, v1), Byte1(v1, v2), Byte2(v2, v3)] + u) == [v0, v1, v2, v3] + Sextets(u)
  {
    SextetsOfCons(Byte0(v0, v1), Byte1(v1, v2), Byte2(v2, v3), u);
    UngroupRoundTrip(v0, v1, v2, v3);
  }

  lemma ModShift(n: int)
    ensures (n - 4) % 4 == n % 4
  {
  }

  /** One unfolding of `Sextets` on three or more bytes. */
  lemma SextetsOfCons(b0: byte, b1: byte, b2: byte, u: seq<byte>)
    ensures Sextets([b0, b1, b2] + u) == [b0 / 4, (b0 % 4) * 16 + b1 / 16, (b1 % 16) * 4 + b2 / 64, b2 % 64] + Sextets(u)
  {
    var b := [b0, b1, b2] + u;
    assert b[3..] == u;
  }

  /** The characters for a sequence of groups. */
  function Symbols(x: seq<sextet>): (s: string)
    ensures |s| == |x|
  {
    seq(|x|, i requires 0 <= i < |x| => StdSymbol(x[i]))
  }

  function Values(s: string): (x: seq<sextet>)
    requires AllStd(s)
    ensures |x| == |s|
  {
    seq(|s|, i requires 0 <= i < |s| => StdValue(s[i]))
  }

  lemma ValuesOfSymbols(x: seq<sextet>)
    ensures AllStd(Symbols(x)) && Values(Symbols(x)) == x
  {
  }

  lemma SymbolsOfValues(s: string)
    requires AllStd(s)
    ensures Symbols(Values(s)) == s
  {
    forall i | 0 <= i < |s| ensures Symbols(Values(s))[i] == s[i] {
      SymbolOfValue(s[i]);
    }
  }

  /** `c.repeat(n)`. */
  function Repeat(c: char, n: nat): (s: string)
    ensures |s| == n && forall i :: 0 <= i < n ==> s[i] == c
  {
    seq(n, _ => c)
  }

  /** The `=` characters that fill the last group of four. */
  function Padding(n: nat): string {
    if n % 3 == 1 then "==" else if n % 3 == 2 then "=" else ""
  }

  lemma ModOffset(q: int, c: int)
    requires 0 <= c < 4
    ensures (4 * q + c) % 4 == c
  {
  }

  /** The encoded length by the remainder of `n` modulo 3; never 1 modulo 4. */
  lemma EncodedLengthMod(n: nat)
    ensures EncodedLength(n) == 4 * (n / 3) + [0, 2, 3][n % 3]
    ensures EncodedLength(n) % 4 == [0, 2, 3][n % 3]
  {
    var q, r := n / 3, n % 3;
    assert EncodedLength(n) == 4 * q + [0, 2, 3][r];
    ModOffset(q, [0, 2, 3][r]);
  }

  /** Padding completes the last group of four and is at most two `=`. */
  lemma PaddingCompletes(n: nat)
    ensures |Padding(n)| <= 2 && forall i :: 0 <= i < |Padding(n)| ==> Padding(n)[i] == '='
    ensures EncodedLength(n) % 4 != 1 && (EncodedLength(n) + |Padding(n)|) % 4 == 0
    ensures |Padding(n)| > 0 ==> EncodedLength(n) > 0
  {
    EncodedLengthMod(n);
    var q, r := n / 3, n % 3;
    if r == 0 {
      assert EncodedLength(n) + |Padding(n)| == 4 * q;
    } else {
      assert EncodedLength(n) + |Padding(n)| == 4 * (q + 1);
    }
    ModOffset(q + (if r == 0 then 0 else 1), 0);
  }

  /** Padded standard base64 of a byte sequence. */
  function StdEncode(b: seq<byte>): (s: string)
    ensures |s| == 4 * (|b| / 3) + (if |b| % 3 == 0 then 0 else 4)
    ensures forall i :: 0 <= i < |s| ==> IsStdSymbol(s[i]) || s[i] == '='
  {
    EncodedLengthMod(|b|);
    Symbols(Sextets(b)) + Padding(|b|)
  }

  /** The bytes of a binary string (every character below 256). */
  function CodeUnits(binary: string): (b: seq<byte>)
    requires forall i :: 0 <= i < |binary| ==> binary[i] as int < 256
    ensures |b| == |binary|
  {
    seq(|binary|, i requires 0 <= i < |binary| => binary[i] as int)
  }

  /** The binary string of a byte sequence (`String.fromCharCode` of each byte). */
  function BinaryString(b: seq<byte>): (s: string)
    ensures |s| == |b|
    ensures forall i :: 0 <= i < |s| ==> s[i] as int < 256
  {
    seq(|b|, i requires 0 <= i < |b| => b[i] as char)
  }

  lemma CodeUnitsOfBinary(b: seq<byte>)
    ensures CodeUnits(BinaryString(b)) == b
  {
  }

  /** `btoa`: fails (InvalidCharacterError) on a character above 255. */
  function Btoa(binary: string): (r: Option<string>)
    ensures r.Some? <==> forall i :: 0 <= i < |binary| ==> binary[i] as int < 256
  {
    if forall i :: 0 <= i < |binary| ==> binary[i] as int < 256 then Some(StdEncode(CodeUnits(binary)))
    else None
  }

  lemma BtoaOfBinaryString(b: seq<byte>)
    ensures Btoa(BinaryString(b)) == Some(StdEncode(b))
  {
    CodeUnitsOfBinary(b);
  }

  /** ASCII whitespace as the WHATWG Infra standard defines it: TAB, LF, FF, CR, SPACE. */
  predicate IsAsciiWhitespace(c: char) {
    c == '\t' || c == '\n' || c as int == 12 || c == '\r' || c == ' '
  }

  predicate NotWhitespace(c: char) { !IsAsciiWhitespace(c) }

  /** Step 2 of forgiving-base64 decode: drop one or two trailing `=`. */
  function DropPadding(s: string): (r: string)
    ensures r <= s && |s| - 2 <= |r|
    ensures forall i :: |r| <= i < |s| ==> s[i] == '='
  {
    if |s| >= 2 && s[|s| - 2] == '=' && s[|s| - 1] == '=' then s[..|s| - 2]
    else if |s| >= 1 && s[|s| - 1] == '=' then s[..|s| - 1]
    else s
  }

  /** `atob`: forgiving-base64 decode, giving a binary string or failing
      (InvalidCharacterError). */
  function Atob(data: string): (r: Option<string>)
    ensures r.Some? ==> forall i :: 0 <= i < |r.value| ==> r.value[i] as int < 256
  {
    var d1 := Filter(data, NotWhitespace);
    var d2 := if |d1| % 4 == 0 then DropPadding(d1) else d1;
    if |d2| % 4 == 1 || !AllStd(d2) then None
    else Some(BinaryString(Unsextets(Values(d2))))
  }

  /** What `atob` accepts: after whitespace removal and the dropping of
      padding, a length other than 1 modulo 4 over the standard alphabet. */
  lemma AtobAccepts(data: string)
    ensures var d1 := Filter(data, NotWhitespace);
            var d2 := if |d1| % 4 == 0 then DropPadding(d1) else d1;
            Atob(data).Some? <==> |d2| % 4 != 1 && AllStd(d2)
  {
  }

  /** Symbols never hold whitespace, so whitespace removal leaves them alone. */
  lemma NoWhitespaceIn(x: seq<sextet>, pad: string)
    requires forall i :: 0 <= i < |pad| ==> pad[i] == '='
    ensures Filter(Symbols(x) + pad, NotWhitespace) == Symbols(x) + pad
  {
    var s := Symbols(x) + pad;
    forall i | 0 <= i < |s| ensures NotWhitespace(s[i]) {
      if i < |x| { assert s[i] == StdSymbol(x[i]); } else { assert s[i] == pad[i - |x|]; }
    }
    FilterKeepsAll(s, NotWhitespace);
  }

  /** Dropping the padding of a symbol string padded to a multiple of four
      leaves the symbols. */
  lemma DropPaddingOfSymbols(x: seq<sextet>, pad: string)
    requires |pad| <= 2 && forall i :: 0 <= i < |pad| ==> pad[i] == '='
    requires |pad| > 0 ==> |x| > 0
    ensures DropPadding(Symbols(x) + pad) == Symbols(x)
  {
    var y := Symbols(x);
    var s := y + pad;
    if |x| > 0 { assert y[|y| - 1] != '='; }
    if |pad| == 0 {
      assert s == y;
      if |s| > 0 { assert s[|s| - 1] == y[|y| - 1]; }
    } else if |pad| == 1 {
      assert s[|s| - 2] == y[|y| - 1];
      assert s[..|s| - 1] == y;
    } else {
      assert s[..|s| - 2] == y;
    }
  }

  /** Decoding a string of symbols whose length is not 1 modulo 4, once its
      padding is gone. */
  lemma AtobOfSymbols(x: seq<sextet>, pad: string)
    requires |x| % 4 != 1 && (|x| + |pad|) % 4 == 0
    requires |pad| <= 2 && forall i :: 0 <= i < |pad| ==> pad[i] == '='
    requires |pad| > 0 ==> |x| > 0
    ensures Atob(Symbols(x) + pad) == Some(BinaryString(Unsextets(x)))
  {
    var y := Symbols(x);
    assert |y + pad| == |x| + |pad|;
    NoWhitespaceIn(x, pad);
    DropPaddingOfSymbols(x, pad);
    ValuesOfSymbols(x);
    AtobOfClean(y + pad, y, x);
  }

  /** `atob` of a string with no whitespace whose padding drops to the symbols of `x`. */
  lemma AtobOfClean(data: string, core: string, x: seq<sextet>)
    requires Filter(data, NotWhitespace) == data && |data| % 4 == 0 && DropPadding(data) == core
    requires |core| % 4 != 1 && AllStd(core) && Values(core) == x
    ensures Atob(data) == Some(BinaryString(Unsextets(x)))
  {
  }

  /** `atob` inverts `btoa` on every byte sequence. */
  lemma AtobOfStdEncode(b: seq<byte>)
    ensures Atob(StdEncode(b)) == Some(BinaryString(b))
  {
    PaddingCompletes(|b|);
    AtobOfSymbols(Sextets(b), Padding(|b|));
    UnsextetsOfSextets(b);
  }
}
