/** src/utils/crypto.ts: the URL-safe base64 codec (section 5 of RFC 4648,
    with the padding of section 3.2 stripped on output and restored on
    input) and thin wrappers over WebCrypto.  AES-GCM, PBKDF2-HMAC-SHA256,
    HMAC-SHA256, UTF-8 and JSON are not modelled: they are function-valued
    fields of `Platform` and `Json`, and the properties the wrappers rely
    on are predicates that the round-trip lemmas take as preconditions. */
module Crypto {
  import opened Wrappers
  import opened Text
  import opened Base64

  /*** The URL-safe codec ***/

  predicate IsUrlSymbol(c: char) {
    'A' <= c <= 'Z' || 'a' <= c <= 'z' || '0' <= c <= '9' || c == '-' || c == '_'
  }

  function ToUrlChar(c: char): char { if c == '+' then '-' else if c == '/' then '_' else c }

  function FromUrlChar(c: char): char { if c == '-' then '+' else if c == '_' then '/' else c }

  /** `s.replace(/\+/g, '-').replace(/\//g, '_')`. */
  function ToUrl(s: string): (r: string)
    ensures |r| == |s|
    ensures forall i :: 0 <= i < |s| ==> r[i] == ToUrlChar(s[i])
  {
    seq(|s|, i requires 0 <= i < |s| => ToUrlChar(s[i]))
  }

  /** `s.replace(/-/g, '+').replace(/_/g, '/')`. */
  function FromUrl(s: string): (r: string)
    ensures |r| == |s|
    ensures forall i :: 0 <= i < |s| ==> r[i] == FromUrlChar(s[i])
  {
    seq(|s|, i requires 0 <= i < |s| => FromUrlChar(s[i]))
  }

  /** `s.replace(/=+$/, '')`: the longest prefix after which only `=` follows. */
  function StripTrailingEquals(s: string): (r: string)
    ensures r <= s
    ensures r == [] || r[|r| - 1] != '='
    ensures forall i :: |r| <= i < |s| ==> s[i] == '='
    decreases |s|
  {
    if s != [] && s[|s| - 1] == '=' then StripTrailingEquals(s[..|s| - 1]) else s
  }

  /** What `toBase64URL` returns for a byte sequence. */
  function EncodeUrl(bytes: seq<byte>): (s: string)
    ensures s <= ToUrl(StdEncode(bytes))
    ensures forall i :: |s| <= i < |StdEncode(bytes)| ==> StdEncode(bytes)[i] == '='
  {
    StripTrailingEquals(ToUrl(StdEncode(bytes)))
  }

  /** The `=` that `fromBase64URL` appends: `4 - n % 4` of them unless `n` is a multiple of 4. */
  function Refill(n: nat): (pad: string)
    ensures forall i :: 0 <= i < |pad| ==> pad[i] == '='
    ensures |pad| == (4 - n % 4) % 4
  {
    if n % 4 != 0 then Repeat('=', 4 - n % 4) else ""
  }

  /** The string `fromBase64URL` hands to `atob`: URL characters translated back, then re-padded. */
  function Repadded(str: string): string {
    FromUrl(str) + Refill(|str|)
  }

  /** The value a `Uint8Array` element takes when a character code is stored in it. */
  function CharCodes(binary: string): (b: seq<byte>)
    ensures |b| == |binary|
  {
    seq(|binary|, i requires 0 <= i < |binary| => binary[i] as int % 256)
  }

  /** What `fromBase64URL` returns, or `None` where `atob` throws. */
  function DecodeUrl(str: string): (r: Option<seq<byte>>)
    ensures r.Some? <==> Atob(Repadded(str)).Some?
    ensures r.Some? ==> |r.value| == |Atob(Repadded(str)).value|
  {
    match Atob(Repadded(str))
    case None => None
    case Some(binary) => Some(CharCodes(binary))
  }

  /** `toBase64URL`: the byte loop builds a binary string, `btoa` encodes it,
      and the result is moved to the URL alphabet with its padding removed. */
  method ToBase64Url(bytes: array<byte>) returns (s: string)
    ensures s == EncodeUrl(bytes[..])
  {
    var binary := "";
    var i := 0;
    while i < bytes.Length
      invariant 0 <= i <= bytes.Length
      invariant binary == BinaryString(bytes[..i])
    {
      binary := binary + [bytes[i] as char];
      i := i + 1;
    }
    assert bytes[..i] == bytes[..];
    BtoaOfBinaryString(bytes[..]);
    var base64 := Btoa(binary).value;
    s := StripTrailingEquals(ToUrl(base64));
  }

  /** `fromBase64URL`: re-pad, decode with `atob` (failing where it throws),
      and copy the character codes into a fresh byte array. */
  method FromBase64Url(str: string) returns (r: Option<seq<byte>>)
    ensures r == DecodeUrl(str)
  {
    var decoded := Atob(Repadded(str));
    if decoded.None? {
      return None;
    }
    var bytes := CopyCharCodes(decoded.value);
    r := Some(bytes);
  }

  /** The filling loop of `fromBase64URL`: `bytes[i] = binary.charCodeAt(i)`. */
  method CopyCharCodes(binary: string) returns (b: seq<byte>)
    ensures b == CharCodes(binary)
  {
    ghost var codes := CharCodes(binary);
    var bytes := new byte[|binary|];
    var i := 0;
    while i < |binary|
      invariant 0 <= i <= |binary|
      invariant forall k :: 0 <= k < i ==> bytes[k] == codes[k]
    {
      bytes[i] := binary[i] as int % 256;
      i := i + 1;
    }
    assert bytes[..] == codes;
    b := bytes[..];
  }

  /** The URL form of the characters for a sequence of 6-bit groups. */
  function UrlSymbols(x: seq<sextet>): (s: string)
    ensures |s| == |x|
  {
    ToUrl(Symbols(x))
  }

  lemma UrlSymbolsAreUrl(x: seq<sextet>)
    ensures forall i :: 0 <= i < |x| ==> IsUrlSymbol(UrlSymbols(x)[i])
  {
  }

  /** Stripping a run of `=` from a string that does not end in `=`. */
  lemma {:induction false} StripPadding(y: string, pad: string)
    requires y == [] || y[|y| - 1] != '='
    requires forall i :: 0 <= i < |pad| ==> pad[i] == '='
    ensures StripTrailingEquals(y + pad) == y
    decreases |pad|
  {
    if pad == [] {
      assert y + pad == y;
    } else {
      var s := y + pad;
      assert s[|s| - 1] == '=';
      assert s[..|s| - 1] == y + pad[..|pad| - 1];
      StripPadding(y, pad[..|pad| - 1]);
    }
  }

  /** The output of `toBase64URL` is the URL symbols of the 6-bit groups. */
  lemma EncodeUrlShape(b: seq<byte>)
    ensures EncodeUrl(b) == UrlSymbols(Sextets(b))
  {
    var x := Sextets(b);
    var p := Padding(|b|);
    assert ToUrl(StdEncode(b)) == UrlSymbols(x) + p;
    if |x| > 0 { assert UrlSymbols(x)[|x| - 1] != '='; }
    StripPadding(UrlSymbols(x), p);
  }

  /** `toBase64URL` never writes `+`, `/` or `=`: only the URL alphabet. */
  lemma EncodeUrlAlphabet(b: seq<byte>)
    ensures forall i :: 0 <= i < |EncodeUrl(b)| ==> IsUrlSymbol(EncodeUrl(b)[i])
    ensures forall i :: 0 <= i < |EncodeUrl(b)| ==> EncodeUrl(b)[i] !in "+/="
  {
    EncodeUrlShape(b);
  }

  /** Length law: `4 * (n / 3)` characters for the full groups, then 0, 2 or 3;
      so the length is never 1 modulo 4. */
  lemma EncodeUrlLength(b: seq<byte>)
    ensures |EncodeUrl(b)| == 4 * (|b| / 3) + [0, 2, 3][|b| % 3]
    ensures |EncodeUrl(b)| % 4 != 1
  {
    EncodeUrlShape(b);
    EncodedLengthMod(|b|);
  }

  /** Translating URL symbols back gives the standard symbols. */
  lemma FromUrlOfUrlSymbols(x: seq<sextet>)
    ensures FromUrl(UrlSymbols(x)) == Symbols(x)
  {
  }

  /** The string `atob` sees for URL symbols is the standard symbols with the
      padding a standard encoder would have written. */
  lemma DecodeUrlSymbols(x: seq<sextet>)
    requires |x| % 4 != 1
    ensures DecodeUrl(UrlSymbols(x)) == Some(Unsextets(x))
  {
    var u := UrlSymbols(x);
    FromUrlOfUrlSymbols(x);
    assert Repadded(u) == Symbols(x) + Refill(|x|);
    RefillCompletes(|x|);
    AtobOfSymbols(x, Refill(|x|));
    CharCodesOfBinary(Unsextets(x));
  }

  /** Storing the characters of a binary string as bytes gives back the bytes it was made of. */
  lemma CharCodesOfBinary(b: seq<byte>)
    ensures CharCodes(BinaryString(b)) == b
  {
  }

  /** Re-padding a length other than 1 modulo 4 adds at most two `=` and reaches a multiple of 4. */
  lemma RefillCompletes(n: nat)
    requires n % 4 != 1
    ensures |Refill(n)| <= 2 && (n + |Refill(n)|) % 4 == 0
    ensures |Refill(n)| > 0 ==> n > 0
  {
    var q, r := n / 4, n % 4;
    assert n == 4 * q + r;
    if r == 0 {
      assert |Refill(n)| == 0;
    } else if r == 2 {
      assert |Refill(n)| == 2 && n + 2 == 4 * (q + 1);
      ModOffset(q + 1, 0);
    } else {
      assert |Refill(n)| == 1 && n + 1 == 4 * (q + 1);
      ModOffset(q + 1, 0);
    }
  }

  /** `fromBase64URL(toBase64URL(b))` gives back `b`, whatever `|b| % 3` is. */
  lemma RoundTrip(b: seq<byte>)
    ensures DecodeUrl(EncodeUrl(b)) == Some(b)
  {
    var x := Sextets(b);
    EncodeUrlShape(b);
    EncodeUrlLength(b);
    assert EncodeUrl(b) == UrlSymbols(x) && |x| % 4 != 1;
    DecodeUrlSymbols(x);
    UnsextetsOfSextets(b);
  }

  /** A length of 1 modulo 4 is rejected: after re-padding, `atob` is left
      with an `=` it cannot decode. */
  lemma DecodeRejectsLengthOneModFour(str: string)
    requires |str| % 4 == 1
    ensures DecodeUrl(str) == None
  {
    var base64 := FromUrl(str);
    var padded := base64 + "===";
    assert Refill(|str|) == Repeat('=', 3) == "===";
    assert Repadded(str) == padded;
    FilterAppend(base64, "===", NotWhitespace);
    assert Filter("===", NotWhitespace) == "===";
    var d1 := Filter(padded, NotWhitespace);
    assert d1 == Filter(base64, NotWhitespace) + "===";
    var d2 := if |d1| % 4 == 0 then DropPadding(d1) else d1;
    assert d2 <= d1 && |d2| >= |d1| - 2;
    assert d2[|d2| - 1] == d1[|d2| - 1] == '=';
    assert !AllStd(d2);
    AtobAccepts(padded);
  }

  /** A character that is in neither alphabet, is not `=` and is not
      whitespace makes the decode fail. */
  lemma DecodeRejectsForeignCharacter(str: string, k: nat)
    requires k < |str|
    requires !IsUrlSymbol(str[k]) && !IsStdSymbol(str[k]) && str[k] != '=' && !IsAsciiWhitespace(str[k])
    ensures DecodeUrl(str) == None
  {
    var c := str[k];
    var base64 := FromUrl(str);
    var padded := Repadded(str);
    assert padded == base64 + padded[|base64|..];
    assert padded[k] == c;
    FilterAppend(padded[..k], padded[k..], NotWhitespace);
    assert padded[k..] == [c] + padded[k + 1..];
    FilterAppend([c], padded[k + 1..], NotWhitespace);
    FilterOne(c, NotWhitespace);
    var d1 := Filter(padded, NotWhitespace);
    var j := |Filter(padded[..k], NotWhitespace)|;
    assert padded == padded[..k] + padded[k..];
    assert d1[j] == c;
    var d2 := if |d1| % 4 == 0 then DropPadding(d1) else d1;
    assert d2 <= d1 && j < |d2|;
    assert d2[j] == c;
    assert !AllStd(d2);
  }

  /** Over the URL alphabet alone, the decode succeeds exactly when the
      length is not 1 modulo 4. */
  lemma DecodeAcceptsUrlStrings(s: string)
    requires forall i :: 0 <= i < |s| ==> IsUrlSymbol(s[i])
    ensures DecodeUrl(s).Some? <==> |s| % 4 != 1
  {
    if |s| % 4 != 1 {
      DecodeUrlSymbols(UrlValues(s));
    } else {
      DecodeRejectsLengthOneModFour(s);
    }
  }

  lemma UrlCharBack(c: char)
    requires IsUrlSymbol(c)
    ensures IsStdSymbol(FromUrlChar(c)) && ToUrlChar(FromUrlChar(c)) == c
  {
  }

  /** The 6-bit values of a string over the URL alphabet; their URL symbols give it back. */
  function UrlValues(s: string): (x: seq<sextet>)
    requires forall i :: 0 <= i < |s| ==> IsUrlSymbol(s[i])
    ensures UrlSymbols(x) == s
  {
    var base64 := FromUrl(s);
    forall i | 0 <= i < |s| ensures IsStdSymbol(base64[i]) && ToUrlChar(base64[i]) == s[i] {
      UrlCharBack(s[i]);
    }
    SymbolsOfValues(base64);
    assert ToUrl(base64) == s;
    Values(base64)
  }

  /** Re-encoding what was decoded from a canonical URL string (the unused
      bits of its last group zero, as an encoder writes them) gives the string back. */
  lemma CanonicalRoundTrip(s: string)
    requires forall i :: 0 <= i < |s| ==> IsUrlSymbol(s[i])
    requires |s| % 4 != 1 && Canonical(UrlValues(s))
    ensures DecodeUrl(s).Some? && EncodeUrl(DecodeUrl(s).value) == s
  {
    var x := UrlValues(s);
    DecodeUrlSymbols(x);
    var b := Unsextets(x);
    SextetsOfUnsextets(x);
    EncodeUrlShape(b);
  }

  /*** The WebCrypto wrappers ***/

  /** Bytes in a fresh AES-GCM initialisation vector. */
  const IvLength := 12
  /** PBKDF2 iteration count. */
  const Pbkdf2Iterations := 310000
  /** Length in bits of every AES-GCM key the module makes. */
  const AesKeyBits := 256

  /** The platform primitives, left abstract. */
  datatype Platform = Platform(
    aesGcmEncrypt: (seq<byte>, seq<byte>, seq<byte>) -> seq<byte>,        // key, iv, plaintext -> ciphertext and tag
    aesGcmDecrypt: (seq<byte>, seq<byte>, seq<byte>) -> Option<seq<byte>>, // None: authentication failed
    pbkdf2Sha256: (seq<byte>, seq<byte>, nat, nat) -> seq<byte>,           // password, salt, iterations, bits
    hmacSha256: (seq<byte>, seq<byte>) -> seq<byte>,                      // key, message
    utf8Encode: string -> seq<byte>,                                      // TextEncoder.encode
    utf8Decode: seq<byte> -> string)                                      // TextDecoder.decode

  /** `JSON.stringify` and `JSON.parse` at one type; `parse` fails where it throws. */
  datatype Json<!T> = Json(stringify: T -> string, parse: string -> Option<T>)

  /** AES-GCM decryption under the key and IV of an encryption recovers the plaintext. */
  ghost predicate AeadCorrect(p: Platform) {
    forall k, iv, m :: p.aesGcmDecrypt(k, iv, p.aesGcmEncrypt(k, iv, m)) == Some(m)
  }

  /** UTF-8 decoding inverts encoding (Dafny strings hold only scalar values). */
  ghost predicate Utf8RoundTrip(p: Platform) {
    forall s :: p.utf8Decode(p.utf8Encode(s)) == s
  }

  /** The UTF-8 encoding is empty exactly for the empty string. */
  ghost predicate Utf8EmptyOnlyForEmpty(p: Platform) {
    forall s :: |p.utf8Encode(s)| == 0 <==> s == ""
  }

  /** PBKDF2 returns as many bits as it is asked for. */
  ghost predicate Pbkdf2Length(p: Platform) {
    forall pw: seq<byte>, salt: seq<byte>, n: nat, bits: nat :: |p.pbkdf2Sha256(pw, salt, n, bits)| == bits / 8
  }

  ghost predicate JsonRoundTrip<T(!new)>(j: Json<T>) {
    forall x :: j.parse(j.stringify(x)) == Some(x)
  }

  /** An AES-GCM `CryptoKey` with its raw key bytes. */
  datatype CryptoKey = AesGcmKey(raw: seq<byte>)

  /** The raw key lengths WebCrypto's AES `importKey` accepts: 128, 192 or 256 bits. */
  predicate ValidAesKeyLength(n: nat) { n == 16 || n == 24 || n == 32 }

  /** `generateMasterKey`: a 256-bit key; the random key bytes are a parameter. */
  function GenerateMasterKey(random: seq<byte>): (k: CryptoKey)
    requires |random| == AesKeyBits / 8
    ensures ValidAesKeyLength(|k.raw|) && |ExportKey(k)| == 43
  {
    EncodeUrlLength(random);
    AesGcmKey(random)
  }

  /** `exportKey`: the raw key bytes through the URL-safe codec. */
  function ExportKey(k: CryptoKey): (text: string)
    ensures DecodeUrl(text) == Some(k.raw)
    ensures forall i :: 0 <= i < |text| ==> IsUrlSymbol(text[i])
  {
    RoundTrip(k.raw);
    EncodeUrlAlphabet(k.raw);
    EncodeUrl(k.raw)
  }

  /** `importKey`: fails when the text does not decode or the key has a length AES does not accept. */
  function ImportKey(text: string): (r: Option<CryptoKey>)
    ensures r.Some? <==> DecodeUrl(text).Some? && ValidAesKeyLength(|DecodeUrl(text).value|)
    ensures r.Some? ==> r.value.raw == DecodeUrl(text).value
  {
    match DecodeUrl(text)
    case None => None
    case Some(raw) => if ValidAesKeyLength(|raw|) then Some(AesGcmKey(raw)) else None
  }

  /** A key survives export and import. */
  lemma ImportExportedKey(k: CryptoKey)
    requires ValidAesKeyLength(|k.raw|)
    ensures ImportKey(ExportKey(k)) == Some(k)
  {
    RoundTrip(k.raw);
  }

  /** The public half of an encryption: ciphertext and IV, both URL-safe base64. */
  datatype Encrypted = Encrypted(ciphertext: string, iv: string)

  /** `encryptData`: JSON, then UTF-8, then AES-GCM under a fresh 12-byte IV
      (the random bytes are a parameter); the 12-byte IV always encodes to
      16 characters, and decodes back to itself. */
  function EncryptData<T>(p: Platform, j: Json<T>, data: T, key: CryptoKey, iv: seq<byte>): (r: Encrypted)
    requires |iv| == IvLength
    ensures |r.iv| == 16
    ensures DecodeUrl(r.iv) == Some(iv)
  {
    EncodeUrlLength(iv);
    RoundTrip(iv);
    Encrypted(EncodeUrl(p.aesGcmEncrypt(key.raw, iv, p.utf8Encode(j.stringify(data)))), EncodeUrl(iv))
  }

  /** `decryptData`: nothing is decrypted unless both the IV and the
      ciphertext decode; fails where AES-GCM authentication or `JSON.parse` fails. */
  function DecryptData<T>(p: Platform, j: Json<T>, ciphertext: string, iv: string, key: CryptoKey): (r: Option<T>)
    ensures r.Some? ==> DecodeUrl(iv).Some? && DecodeUrl(ciphertext).Some?
  {
    match DecodeUrl(iv)
    case None => None
    case Some(ivBytes) =>
      match DecodeUrl(ciphertext)
      case None => None
      case Some(ct) =>
        match p.aesGcmDecrypt(key.raw, ivBytes, ct)
        case None => None
        case Some(plain) => j.parse(p.utf8Decode(plain))
  }

  /** Decrypting what `encryptData` produced, under the same key, gives back
      the data: the ciphertext and the IV go through the same codec both ways. */
  lemma EncryptDecrypt<T(!new)>(p: Platform, j: Json<T>, data: T, key: CryptoKey, iv: seq<byte>)
    requires |iv| == IvLength
    requires AeadCorrect(p) && Utf8RoundTrip(p) && JsonRoundTrip(j)
    ensures var e := EncryptData(p, j, data, key, iv);
            DecryptData(p, j, e.ciphertext, e.iv, key) == Some(data)
  {
    var plain := p.utf8Encode(j.stringify(data));
    var ct := p.aesGcmEncrypt(key.raw, iv, plain);
    RoundTrip(ct);
    RoundTrip(iv);
    assert p.aesGcmDecrypt(key.raw, iv, ct) == Some(plain);
    assert p.utf8Decode(plain) == j.stringify(data);
  }

  /** `deriveKeyFromPasscode`: PBKDF2-HMAC-SHA256 with 310000 iterations over
      the UTF-8 passcode and salt, asked for a 256-bit AES-GCM key. */
  function DeriveKeyFromPasscode(p: Platform, passcode: string, salt: string): (k: CryptoKey)
    ensures k.raw == p.pbkdf2Sha256(p.utf8Encode(passcode), p.utf8Encode(salt), 310000, 256)
    ensures Pbkdf2Length(p) ==> |k.raw| == 32 && ValidAesKeyLength(|k.raw|)
  {
    AesGcmKey(p.pbkdf2Sha256(p.utf8Encode(passcode), p.utf8Encode(salt), Pbkdf2Iterations, AesKeyBits))
  }

  /** The text both signer and verifier authenticate: `plan:partnerNames`. */
  function PremiumPayload(plan: string, partnerNames: string): string {
    plan + ":" + partnerNames
  }

  /** `signPremiumPlan`: HMAC-SHA256 under the UTF-8 secret; an empty key
      makes WebCrypto's HMAC `importKey` throw. */
  function SignPremiumPlan(p: Platform, plan: string, partnerNames: string, secret: string): (r: Option<string>)
    ensures r.Some? <==> |p.utf8Encode(secret)| > 0
    ensures r.Some? ==> DecodeUrl(r.value) == Some(p.hmacSha256(p.utf8Encode(secret), p.utf8Encode(PremiumPayload(plan, partnerNames))))
  {
    var key := p.utf8Encode(secret);
    if |key| == 0 then None
    else
      var mac := p.hmacSha256(key, p.utf8Encode(PremiumPayload(plan, partnerNames)));
      RoundTrip(mac);
      Some(EncodeUrl(mac))
  }

  /** `verifyPremiumPlan`: throws (None) on an empty secret or a signature that
      does not decode; otherwise true exactly when the decoded signature is
      the HMAC of the same payload. */
  function VerifyPremiumPlan(p: Platform, plan: string, partnerNames: string, signature: string, secret: string): (r: Option<bool>)
    ensures r.Some? <==> |p.utf8Encode(secret)| > 0 && DecodeUrl(signature).Some?
    ensures r.Some? ==>
              (r.value <==> DecodeUrl(signature).value == p.hmacSha256(p.utf8Encode(secret), p.utf8Encode(PremiumPayload(plan, partnerNames))))
  {
    var key := p.utf8Encode(secret);
    if |key| == 0 then None
    else
      match DecodeUrl(signature)
      case None => None
      case Some(sig) => Some(sig == p.hmacSha256(key, p.utf8Encode(PremiumPayload(plan, partnerNames))))
  }

  /** What `signPremiumPlan` returns verifies under the same plan, names and secret. */
  lemma SignThenVerify(p: Platform, plan: string, partnerNames: string, secret: string)
    requires SignPremiumPlan(p, plan, partnerNames, secret).Some?
    ensures VerifyPremiumPlan(p, plan, partnerNames, SignPremiumPlan(p, plan, partnerNames, secret).value, secret) == Some(true)
  {
  }

  /** A signature made for one plan and names verifies for another only when
      the HMACs of the two payloads collide. */
  lemma VerifyOtherPayload(p: Platform, plan: string, partnerNames: string, plan': string, partnerNames': string, secret: string)
    requires SignPremiumPlan(p, plan, partnerNames, secret).Some?
    requires VerifyPremiumPlan(p, plan', partnerNames', SignPremiumPlan(p, plan, partnerNames, secret).value, secret) == Some(true)
    ensures var key := p.utf8Encode(secret);
            p.hmacSha256(key, p.utf8Encode(PremiumPayload(plan', partnerNames'))) == p.hmacSha256(key, p.utf8Encode(PremiumPayload(plan, partnerNames)))
  {
  }

  /** For plans without `:` the payload determines the plan and the names. */
  lemma PayloadInjective(plan: string, names: string, plan': string, names': string)
    requires ':' !in plan && ':' !in plan'
    requires PremiumPayload(plan, names) == PremiumPayload(plan', names')
    ensures plan == plan' && names == names'
  {
    ColonAfterPlan(plan, names);
    ColonAfterPlan(plan', names');
    var s := PremiumPayload(plan, names);
    assert plan == s[..|plan|] == plan';
    assert names == s[|plan| + 1..] == names';
  }

  /** The first `:` of the payload is the one after a colon-free plan. */
  lemma ColonAfterPlan(plan: string, names: string)
    requires ':' !in plan
    ensures IndexOf(PremiumPayload(plan, names), ':') == |plan|
  {
    var s := PremiumPayload(plan, names);
    forall k | 0 <= k < |plan| ensures s[k] != ':' {
      assert s[k] == plan[k];
    }
    assert s[|plan|] == ':';
  }
}
