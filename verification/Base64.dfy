/** The base64 text encoding, section 4 of RFC 4648: groups of three bytes
    become four characters, and a short last group is padded with '='. */
module Base64 {
  import opened Powers

  type Byte = bv8

  // ----- the alphabet -----

  /** base64_chars[v]: A to Z, a to z, 0 to 9, + and /. */
  function Letter(v: nat): char
    requires v < 64
  {
    if v < 26 then 'A' + v as char
    else if v < 52 then 'a' + (v - 26) as char
    else if v < 62 then '0' + (v - 52) as char
    else if v == 62 then '+'
    else '/'
  }

  predicate IsBase64(c: char) {
    'A' <= c <= 'Z' || 'a' <= c <= 'z' || '0' <= c <= '9' || c == '+' || c == '/'
  }

  /** The position of a character in the alphabet; 255 is npos cut to a byte. */
  function Index(c: char): (v: nat)
    ensures v < 64 || v == 255
    ensures IsBase64(c) <==> v < 64
    ensures v < 64 ==> Letter(v) == c
  {
    if 'A' <= c <= 'Z' then c as int - 'A' as int
    else if 'a' <= c <= 'z' then c as int - 'a' as int + 26
    else if '0' <= c <= '9' then c as int - '0' as int + 52
    else if c == '+' then 62
    else if c == '/' then 63
    else 255
  }

  lemma LetterIndex(v: nat)
    requires v < 64
    ensures Index(Letter(v)) == v && IsBase64(Letter(v)) && Letter(v) != '='
  {
  }

  /** base64_chars.find, cut to a byte. */
  method Find(c: char) returns (v: Byte)
    ensures v == Index(c) as Byte
  {
    for k := 0 to 64
      invariant Index(c) >= k
    {
      if Letter(k) == c {
        LetterIndex(k);
        return k as Byte;
      }
    }
    v := 255;
  }

  function Char(v: Byte): char
    requires v < 64
  {
    Letter(v as int)
  }

  lemma CharIndex(v: Byte)
    requires v < 64
    ensures Index(Char(v)) as Byte == v && IsBase64(Char(v)) && Char(v) != '='
  {
    LetterIndex(v as int);
  }

  // ----- one group -----

  function Sextet0(a: Byte): Byte { (a & 0xfc) >> 2 }
  function Sextet1(a: Byte, b: Byte): Byte { ((a & 0x03) << 4) + ((b & 0xf0) >> 4) }
  function Sextet2(b: Byte, c: Byte): Byte { ((b & 0x0f) << 2) + ((c & 0xc0) >> 6) }
  function Sextet3(c: Byte): Byte { c & 0x3f }

  function Octet0(p: Byte, q: Byte): Byte { (p << 2) + ((q & 0x30) >> 4) }
  function Octet1(q: Byte, r: Byte): Byte { ((q & 0xf) << 4) + ((r & 0x3c) >> 2) }
  function Octet2(r: Byte, s: Byte): Byte { ((r & 0x3) << 6) + s }

  lemma SextetsFit(a: Byte, b: Byte, c: Byte)
    ensures Sextet0(a) < 64 && Sextet1(a, b) < 64 && Sextet2(b, c) < 64 && Sextet3(c) < 64
  {
  }

  /** Four sextets determine the three bytes they were cut from. */
  lemma GroupRoundTrip(a: Byte, b: Byte, c: Byte)
    ensures Octet0(Sextet0(a), Sextet1(a, b)) == a
    ensures Octet1(Sextet1(a, b), Sextet2(b, c)) == b
    ensures Octet2(Sextet2(b, c), Sextet3(c)) == c
  {
  }

  function Quad(a: Byte, b: Byte, c: Byte): (q: string)
    ensures |q| == 4
  {
    SextetsFit(a, b, c);
    [Char(Sextet0(a)), Char(Sextet1(a, b)), Char(Sextet2(b, c)), Char(Sextet3(c))]
  }

  function Value(c: char): Byte {
    Index(c) as Byte
  }

  function Triple(p: char, q: char, r: char, s: char): (t: seq<Byte>)
    ensures |t| == 3
  {
    [Octet0(Value(p), Value(q)), Octet1(Value(q), Value(r)), Octet2(Value(r), Value(s))]
  }

  lemma QuadRoundTrip(a: Byte, b: Byte, c: Byte)
    ensures var q := Quad(a, b, c);
            && Triple(q[0], q[1], q[2], q[3]) == [a, b, c]
            && forall i :: 0 <= i < 4 ==> IsBase64(q[i]) && q[i] != '='
  {
    SextetsFit(a, b, c);
    CharIndex(Sextet0(a));
    CharIndex(Sextet1(a, b));
    CharIndex(Sextet2(b, c));
    CharIndex(Sextet3(c));
    GroupRoundTrip(a, b, c);
  }

  // ----- the encoding as a function -----

  /** The full groups. */
  function EncodeFull(s: seq<Byte>): string
    requires |s| % 3 == 0
  {
    if s == [] then []
    else
      var n := |s| - 3;
      EncodeFull(s[..n]) + Quad(s[n], s[n + 1], s[n + 2])
  }

  /** The last group, of fewer than three bytes. */
  function EncodeTail(s: seq<Byte>): string
    requires |s| < 3
  {
    if |s| == 0 then []
    else if |s| == 1 then Quad(s[0], 0, 0)[..2] + "=="
    else Quad(s[0], s[1], 0)[..3] + "="
  }

  function Encoded(s: seq<Byte>): string {
    var m := |s| - |s| % 3;
    EncodeFull(s[..m]) + EncodeTail(s[m..])
  }

  /** The characters up to the first one outside the alphabet. */
  function Code(t: string): string {
    if t == [] || !IsBase64(t[0]) then [] else [t[0]] + Code(t[1..])
  }

  function DecodeFull(t: string): seq<Byte>
    requires |t| % 4 == 0
  {
    if t == [] then []
    else
      var n := |t| - 4;
      DecodeFull(t[..n]) + Triple(t[n], t[n + 1], t[n + 2], t[n + 3])
  }

  /** One byte fewer than there are characters. */
  function DecodeTail(t: string): seq<Byte>
    requires |t| < 4
  {
    if |t| <= 1 then []
    else if |t| == 2 then [Octet0(Value(t[0]), Value(t[1]))]
    else [Octet0(Value(t[0]), Value(t[1])), Octet1(Value(t[1]), Value(t[2]))]
  }

  function Decoded(text: string): seq<Byte> {
    var t := Code(text);
    var m := |t| - |t| % 4;
    DecodeFull(t[..m]) + DecodeTail(t[m..])
  }

  // ----- round trip and length -----

  ghost predicate AllCode(t: string) {
    forall i :: 0 <= i < |t| ==> IsBase64(t[i])
  }

  lemma {:induction false} EncodeLast(s: seq<Byte>, n: nat)
    requires |s| == n + 3 && n % 3 == 0
    ensures EncodeFull(s) == EncodeFull(s[..n]) + Quad(s[n], s[n + 1], s[n + 2])
    ensures s == s[..n] + [s[n], s[n + 1], s[n + 2]]
  {
    hide Quad;
  }

  lemma {:induction false} FullLength(s: seq<Byte>)
    requires |s| % 3 == 0
    ensures 3 * |EncodeFull(s)| == 4 * |s| && AllCode(EncodeFull(s))
  {
    hide Quad, IsBase64, EncodeFull;
    if |s| >= 3 {
      var n := |s| - 3;
      FullLength(s[..n]);
      EncodeLast(s, n);
      QuadRoundTrip(s[n], s[n + 1], s[n + 2]);
    } else {
      NothingEncoded(s);
    }
  }

  lemma NothingEncoded(s: seq<Byte>)
    requires s == []
    ensures EncodeFull(s) == [] && DecodeFull([]) == []
  {
  }

  lemma {:induction false} FullRoundTrip(s: seq<Byte>)
    requires |s| % 3 == 0
    ensures |EncodeFull(s)| % 4 == 0 && DecodeFull(EncodeFull(s)) == s
  {
    hide *;
    FullLength(s);
    if |s| >= 3 {
      var n := |s| - 3;
      FullRoundTrip(s[..n]);
      EncodeLast(s, n);
      QuadRoundTrip(s[n], s[n + 1], s[n + 2]);
      DecodeLast(EncodeFull(s[..n]), Quad(s[n], s[n + 1], s[n + 2]));
    } else {
      NothingEncoded(s);
    }
  }

  lemma DecodeLast(e: string, q: string)
    requires |e| % 4 == 0 && |q| == 4
    ensures |e + q| % 4 == 0 && DecodeFull(e + q) == DecodeFull(e) + Triple(q[0], q[1], q[2], q[3])
  {
    hide Triple;
    var t := e + q;
    assert t[..|e|] == e && t[|e|] == q[0] && t[|e| + 1] == q[1] && t[|e| + 2] == q[2] && t[|e| + 3] == q[3];
  }

  /** The characters of the last group, without its padding. */
  lemma TailRoundTrip(s: seq<Byte>) returns (t: string)
    requires |s| < 3
    ensures |t| == (if |s| == 0 then 0 else |s| + 1) && AllCode(t) && DecodeTail(t) == s
    ensures exists pad :: EncodeTail(s) == t + pad && AllPadding(pad) && |t| + |pad| == if |s| == 0 then 0 else 4
  {
    hide Quad, IsBase64, Octet0, Octet1, Value;
    if |s| == 0 {
      t := [];
      assert EncodeTail(s) == t + "";
    } else if |s| == 1 {
      QuadRoundTrip(s[0], 0, 0);
      t := Quad(s[0], 0, 0)[..2];
      assert EncodeTail(s) == t + "==";
    } else {
      QuadRoundTrip(s[0], s[1], 0);
      t := Quad(s[0], s[1], 0)[..3];
      assert EncodeTail(s) == t + "=";
    }
  }

  ghost predicate AllPadding(pad: string) {
    forall i :: 0 <= i < |pad| ==> pad[i] == '='
  }

  lemma {:induction false} CodeStops(t: string, pad: string)
    requires AllCode(t) && AllPadding(pad)
    ensures Code(t + pad) == t
  {
    if t == [] {
      assert t + pad == pad;
    } else {
      assert (t + pad)[1..] == t[1..] + pad;
      CodeStops(t[1..], pad);
    }
  }

  /** decode(encode(s)) == s for every byte string, and the encoded length is
      four characters for every started group of three bytes. */
  lemma RoundTrip(s: seq<Byte>)
    ensures Decoded(Encoded(s)) == s
    ensures |Encoded(s)| == 4 * CeilDiv(|s|, 3)
  {
    hide Code, EncodeFull, EncodeTail, DecodeFull, DecodeTail, IsBase64;
    var m := |s| - |s| % 3;
    FullRoundTrip(s[..m]);
    FullLength(s[..m]);
    var e := EncodeFull(s[..m]);
    var t := TailRoundTrip(s[m..]);
    var pad :| EncodeTail(s[m..]) == t + pad && AllPadding(pad) && |t| + |pad| == if |s[m..]| == 0 then 0 else 4;
    assert Encoded(s) == (e + t) + pad;
    CodeStops(e + t, pad);
    assert (e + t)[..|e|] == e && (e + t)[|e|..] == t;
    assert s == s[..m] + s[m..];
  }

  // ----- the text, character by character -----

  lemma LetterCode(v: nat)
    requires v < 64
    ensures Letter(v) as int ==
            if v < 26 then 65 + v else if v < 52 then 71 + v else if v < 62 then v - 4 else if v == 62 then 43 else 47
  {
  }

  lemma UpperCode(v: nat)
    requires v < 26
    ensures "ABCDEFGHIJKLMNOPQRSTUVWXYZ"[v] as int == 65 + v
  {
  }

  lemma UpperPart(v: nat)
    requires v < 26
    ensures "ABCDEFGHIJKLMNOPQRSTUVWXYZabcdefghijklmnopqrstuvwxyz0123456789+/"[v] == "ABCDEFGHIJKLMNOPQRSTUVWXYZ"[v]
  {
  }

  lemma LowerPart(v: nat)
    requires 26 <= v < 52
    ensures "ABCDEFGHIJKLMNOPQRSTUVWXYZabcdefghijklmnopqrstuvwxyz0123456789+/"[v] as int == 71 + v
  {
  }

  lemma DigitPart(v: nat)
    requires 52 <= v < 62
    ensures "ABCDEFGHIJKLMNOPQRSTUVWXYZabcdefghijklmnopqrstuvwxyz0123456789+/"[v] as int == v - 4
  {
  }

  lemma LastPart(v: nat)
    requires 62 <= v < 64
    ensures "ABCDEFGHIJKLMNOPQRSTUVWXYZabcdefghijklmnopqrstuvwxyz0123456789+/"[v] as int == if v == 62 then 43 else 47
  {
  }

  lemma AlphabetCode(v: nat)
    requires v < 64
    ensures "ABCDEFGHIJKLMNOPQRSTUVWXYZabcdefghijklmnopqrstuvwxyz0123456789+/"[v] as int ==
            if v < 26 then 65 + v else if v < 52 then 71 + v else if v < 62 then v - 4 else if v == 62 then 43 else 47
  {
    if v < 26 {
      UpperPart(v);
      UpperCode(v);
    } else if v < 52 {
      LowerPart(v);
    } else if v < 62 {
      DigitPart(v);
    } else {
      LastPart(v);
    }
  }

  lemma SameChar(c: char, d: char)
    requires c as int == d as int
    ensures c == d
  {
  }

  /** The alphabet is the string base64_chars. */
  lemma LetterIs(v: nat)
    requires v < 64
    ensures Letter(v) == "ABCDEFGHIJKLMNOPQRSTUVWXYZabcdefghijklmnopqrstuvwxyz0123456789+/"[v]
  {
    LetterCode(v);
    AlphabetCode(v);
    SameChar(Letter(v), "ABCDEFGHIJKLMNOPQRSTUVWXYZabcdefghijklmnopqrstuvwxyz0123456789+/"[v]);
  }

  function Int(v: Byte): nat {
    v as int
  }

  lemma High6(a: Byte)
    ensures Int(Sextet0(a)) == Int(a) / 4 && Int(a & 3) == Int(a) % 4
  {
  }

  lemma High4(b: Byte)
    ensures Int(b >> 4) == Int(b) / 16 && Int(b & 0xf) == Int(b) % 16
  {
  }

  lemma High2(c: Byte)
    ensures Int(c >> 6) == Int(c) / 64 && Int(Sextet3(c)) == Int(c) % 64
  {
  }

  lemma SplitAt4(s: Byte)
    ensures Int(s) == 16 * Int(s >> 4) + Int(s & 0xf)
  {
  }

  lemma SplitAt2(s: Byte)
    ensures Int(s) == 4 * Int(s >> 2) + Int(s & 3)
  {
  }

  lemma MiddleBits(a: Byte, b: Byte, c: Byte)
    ensures Sextet1(a, b) >> 4 == a & 3 && Sextet1(a, b) & 0xf == b >> 4
    ensures Sextet2(b, c) >> 2 == b & 0xf && Sextet2(b, c) & 3 == c >> 6
  {
  }

  lemma SextetInts(a: Byte, b: Byte, c: Byte)
    ensures Int(Sextet0(a)) == Int(a) / 4 && Int(Sextet1(a, b)) == 16 * (Int(a) % 4) + Int(b) / 16
    ensures Int(Sextet2(b, c)) == 4 * (Int(b) % 16) + Int(c) / 64 && Int(Sextet3(c)) == Int(c) % 64
  {
    hide *;
    High6(a);
    High4(b);
    High2(c);
    MiddleBits(a, b, c);
    SplitAt4(Sextet1(a, b));
    SplitAt2(Sextet2(b, c));
  }

  lemma Sum64(a: nat, b: nat, c: nat)
    ensures 65536 * a + 256 * b + c ==
            262144 * (a / 4) + 4096 * (16 * (a % 4) + b / 16) + 64 * (4 * (b % 16) + c / 64) + c % 64
  {
  }

  /** d are the digits of n to base 64. */
  ghost predicate Digits(n: int, d: seq<nat>) {
    && |d| == 4 && d[0] < 64 && d[1] < 64 && d[2] < 64 && d[3] < 64
    && n == 262144 * d[0] + 4096 * d[1] + 64 * d[2] + d[3]
  }

  lemma DigitsUnique(n: int, d: seq<nat>, e: seq<nat>)
    requires Digits(n, d) && Digits(n, e)
    ensures d[0] == e[0] && d[1] == e[1] && d[2] == e[2] && d[3] == e[3]
  {
  }

  lemma Below64(v: Byte)
    requires v < 64
    ensures Int(v) < 64 && Char(v) == Letter(Int(v))
  {
  }

  ghost function Sextets(a: Byte, b: Byte, c: Byte): (d: seq<nat>)
    ensures |d| == 4
  {
    [Int(Sextet0(a)), Int(Sextet1(a, b)), Int(Sextet2(b, c)), Int(Sextet3(c))]
  }

  /** The sextets are the digits, to base 64, of the number that three bytes make. */
  lemma SextetDigits(a: Byte, b: Byte, c: Byte)
    ensures Digits(65536 * Int(a) + 256 * Int(b) + Int(c), Sextets(a, b, c))
  {
    hide Sextet0, Sextet1, Sextet2, Sextet3, Int;
    SextetInts(a, b, c);
    Sum64(Int(a), Int(b), Int(c));
    SextetsFit(a, b, c);
    Below64(Sextet0(a));
    Below64(Sextet1(a, b));
    Below64(Sextet2(b, c));
    Below64(Sextet3(c));
  }

  lemma QuadLetters(a: Byte, b: Byte, c: Byte, i: nat)
    requires i < 4
    ensures Sextets(a, b, c)[i] < 64 && Quad(a, b, c)[i] == Letter(Sextets(a, b, c)[i])
  {
    hide Sextet0, Sextet1, Sextet2, Sextet3, Char, Letter, Quad, Int;
    QuadChars(a, b, c);
    Below64(Sextet0(a));
    Below64(Sextet1(a, b));
    Below64(Sextet2(b, c));
    Below64(Sextet3(c));
  }

  /** Character i of a group is the letter of digit i. */
  lemma QuadLetter(a: Byte, b: Byte, c: Byte, d: seq<nat>, i: nat)
    requires Digits(65536 * Int(a) + 256 * Int(b) + Int(c), d) && i < 4
    ensures d[i] < 64 && Quad(a, b, c)[i] == Letter(d[i])
  {
    hide *;
    SextetDigits(a, b, c);
    QuadLetters(a, b, c, i);
    SameDigits(65536 * Int(a) + 256 * Int(b) + Int(c), d, Sextets(a, b, c));
  }

  lemma SameDigits(n: int, d: seq<nat>, e: seq<nat>)
    requires Digits(n, d) && Digits(n, e)
    ensures d == e
  {
    DigitsUnique(n, d, e);
  }

  lemma {:induction false} FullAt(s: seq<Byte>, m: nat)
    requires |s| % 3 == 0 && 3 * m + 3 <= |s|
    ensures |EncodeFull(s)| >= 4 * m + 4
    ensures EncodeFull(s)[4 * m..4 * m + 4] == Quad(s[3 * m], s[3 * m + 1], s[3 * m + 2])
  {
    hide Quad, EncodeFull;
    var n := |s| - 3;
    EncodeLast(s, n);
    FullLength(s[..n]);
    FullLength(s);
    if 3 * m < n {
      FullAt(s[..n], m);
    }
  }

  /** Every full group m: its four characters are the letters of the digits, to base
      64, of the number that its three bytes make. */
  lemma EncodedLetter(s: seq<Byte>, m: nat, d: seq<nat>, i: nat)
    requires 3 * m + 3 <= |s| && i < 4
    requires |d| == 4 && d[0] < 64 && d[1] < 64 && d[2] < 64 && d[3] < 64
    requires 65536 * (s[3 * m] as int) + 256 * (s[3 * m + 1] as int) + (s[3 * m + 2] as int)
             == 262144 * d[0] + 4096 * d[1] + 64 * d[2] + d[3]
    ensures 4 * m + i < |Encoded(s)| && d[i] < 64
    ensures Encoded(s)[4 * m + i] == "ABCDEFGHIJKLMNOPQRSTUVWXYZabcdefghijklmnopqrstuvwxyz0123456789+/"[d[i]]
  {
    hide Letter, Encoded, Quad;
    EncodedQuad(s, m, i);
    QuadLetter(s[3 * m], s[3 * m + 1], s[3 * m + 2], d, i);
    LetterIs(d[i]);
  }

  lemma EncodedQuad(s: seq<Byte>, m: nat, i: nat)
    requires 3 * m + 3 <= |s| && i < 4
    ensures 4 * m + i < |Encoded(s)|
    ensures Encoded(s)[4 * m + i] == Quad(s[3 * m], s[3 * m + 1], s[3 * m + 2])[i]
  {
    hide Quad, EncodeFull, EncodeTail;
    var n := |s| - |s| % 3;
    FullAt(s[..n], m);
    var e := EncodeFull(s[..n]);
    assert e[4 * m..4 * m + 4][i] == e[4 * m + i];
  }

  lemma TailAt(s: seq<Byte>)
    requires |s| % 3 != 0
    ensures |Encoded(s)| >= 4
    ensures Encoded(s)[|Encoded(s)| - 4..] == EncodeTail(s[|s| - |s| % 3..])
  {
    hide Quad, EncodeFull;
  }

  /** One byte left over: two letters for its digits, after four zero bits were added,
      and two times '='. */
  lemma EncodedOneMore(s: seq<Byte>, d: seq<nat>, i: nat)
    requires |s| % 3 == 1 && i < 4
    requires |d| == 2 && d[0] < 64 && d[1] < 64 && 16 * (s[|s| - 1] as int) == 64 * d[0] + d[1]
    ensures |Encoded(s)| >= 4
    ensures Encoded(s)[|Encoded(s)| - 4 + i] ==
            if i < 2 then "ABCDEFGHIJKLMNOPQRSTUVWXYZabcdefghijklmnopqrstuvwxyz0123456789+/"[d[i]] else '='
  {
    hide Letter, Encoded, Quad;
    TailAt(s);
    var a := s[|s| - 1];
    assert s[|s| - 1..] == [a];
    var t := Encoded(s)[|Encoded(s)| - 4..];
    assert t[i] == Encoded(s)[|Encoded(s)| - 4 + i];
    if i < 2 {
      QuadLetter(a, 0, 0, [d[0], d[1], 0, 0], i);
      LetterIs(d[i]);
    }
  }

  /** Two bytes left over: three letters for their digits, after two zero bits were
      added, and one '='. */
  lemma EncodedTwoMore(s: seq<Byte>, d: seq<nat>, i: nat)
    requires |s| % 3 == 2 && i < 4
    requires |d| == 3 && d[0] < 64 && d[1] < 64 && d[2] < 64
    requires 1024 * (s[|s| - 2] as int) + 4 * (s[|s| - 1] as int) == 4096 * d[0] + 64 * d[1] + d[2]
    ensures |Encoded(s)| >= 4
    ensures Encoded(s)[|Encoded(s)| - 4 + i] ==
            if i < 3 then "ABCDEFGHIJKLMNOPQRSTUVWXYZabcdefghijklmnopqrstuvwxyz0123456789+/"[d[i]] else '='
  {
    hide Letter, Encoded, Quad;
    TailAt(s);
    var a, b := s[|s| - 2], s[|s| - 1];
    assert s[|s| - 2..] == [a, b];
    var t := Encoded(s)[|Encoded(s)| - 4..];
    assert t[i] == Encoded(s)[|Encoded(s)| - 4 + i];
    if i < 3 {
      QuadLetter(a, b, 0, [d[0], d[1], d[2], 0], i);
      LetterIs(d[i]);
    }
  }

  lemma InAlphabet(c: char)
    ensures IsBase64(c) <==> c in "ABCDEFGHIJKLMNOPQRSTUVWXYZabcdefghijklmnopqrstuvwxyz0123456789+/"
  {
    hide IsBase64, Index, Letter;
    if IsBase64(c) { LetterIs(Index(c)); }
    if c in "ABCDEFGHIJKLMNOPQRSTUVWXYZabcdefghijklmnopqrstuvwxyz0123456789+/" {
      var v :| 0 <= v < 64 && "ABCDEFGHIJKLMNOPQRSTUVWXYZabcdefghijklmnopqrstuvwxyz0123456789+/"[v] == c;
      LetterIs(v);
      LetterIndex(v);
    }
  }

  lemma {:induction false} DecodedFullLength(t: string)
    requires |t| % 4 == 0
    ensures 4 * |DecodeFull(t)| == 3 * |t|
  {
    if t != [] { DecodedFullLength(t[..|t| - 4]); }
  }

  lemma CodeOnly(t: string, rest: string)
    requires AllCode(t) && (rest == [] || !IsBase64(rest[0]))
    ensures Code(t + rest) == t
  {
    hide IsBase64, Code;
    assert (t + rest)[..|t|] == t;
    CodeIs(t + rest, |t|);
  }

  lemma DecodedLength(t: string)
    requires Code(t) == t
    ensures |Decoded(t)| == |t| * 3 / 4
  {
    hide Code, DecodeFull;
    var r := |t| % 4;
    DecodedFullLength(t[..|t| - r]);
    assert |DecodeTail(t[|t| - r..])| == if r == 0 then 0 else r - 1;
  }

  /** Decoding stops at the first character outside the alphabet and yields three
      bytes for every four characters, one byte fewer than there are characters left. */
  lemma DecodedStops(t: string, rest: string)
    requires forall i :: 0 <= i < |t| ==> t[i] in "ABCDEFGHIJKLMNOPQRSTUVWXYZabcdefghijklmnopqrstuvwxyz0123456789+/"
    requires rest == [] || rest[0] !in "ABCDEFGHIJKLMNOPQRSTUVWXYZabcdefghijklmnopqrstuvwxyz0123456789+/"
    ensures Decoded(t + rest) == Decoded(t) && |Decoded(t)| == |t| * 3 / 4
  {
    hide IsBase64, Code, DecodeFull, DecodeTail;
    forall i | 0 <= i < |t| ensures IsBase64(t[i]) { InAlphabet(t[i]); }
    if rest != [] { InAlphabet(rest[0]); }
    CodeOnly(t, rest);
    CodeOnly(t, []);
    assert t + [] == t;
    DecodedLength(t);
    SameCode(t + rest, t);
  }

  lemma SameCode(t: string, t': string)
    requires Code(t) == Code(t')
    ensures Decoded(t) == Decoded(t')
  {
  }

  lemma DecodedParts(t: string)
    requires AllCode(t)
    ensures Decoded(t) == DecodeFull(t[..|t| - |t| % 4]) + DecodeTail(t[|t| - |t| % 4..])
  {
    hide IsBase64, Code, DecodeFull, DecodeTail;
    CodeOnly(t, []);
    assert t + [] == t;
  }

  lemma TailFilled(t: string, fill: string)
    requires 2 <= |t| < 4 && fill == if |t| == 2 then "AA" else "A"
    ensures var q := t + fill; DecodeTail(t) == Triple(q[0], q[1], q[2], q[3])[..|t| - 1]
  {
    hide Value, Octet0, Octet1, Octet2;
  }

  lemma FilledCode(t: string, fill: string)
    requires AllCode(t) && (fill == "AA" || fill == "A")
    ensures AllCode(t + fill)
  {
  }

  lemma CodeFilled(t: string, fill: string)
    requires AllCode(t) && |t| % 4 >= 2 && fill == if |t| % 4 == 2 then "AA" else "A"
    ensures |Decoded(t + fill)| >= |Decoded(t)| && Decoded(t) == Decoded(t + fill)[..|Decoded(t)|]
  {
    hide IsBase64, Decoded, Triple, DecodeTail, DecodeFull;
    FilledCode(t, fill);
    var m := |t| - |t| % 4;
    DecodedParts(t);
    DecodedParts(t + fill);
    TailFilled(t[m..], fill);
    assert t + fill == t[..m] + (t[m..] + fill);
    DecodeLast(t[..m], t[m..] + fill);
    assert (t + fill)[..m + 4] == t + fill && (t + fill)[m + 4..] == [];
    NoRest((t + fill)[m + 4..]);
  }

  /** The bytes of a short last group are the first bytes of the group filled up with
      letters of value 0. */
  lemma DecodedFilled(t: string, fill: string)
    requires forall i :: 0 <= i < |t| ==> t[i] in "ABCDEFGHIJKLMNOPQRSTUVWXYZabcdefghijklmnopqrstuvwxyz0123456789+/"
    requires |t| % 4 >= 2 && fill == if |t| % 4 == 2 then "AA" else "A"
    ensures |Decoded(t + fill)| >= |Decoded(t)| && Decoded(t) == Decoded(t + fill)[..|Decoded(t)|]
  {
    hide *;
    forall i | 0 <= i < |t| ensures IsBase64(t[i]) { InAlphabet(t[i]); }
    AllIsCode(t);
    CodeFilled(t, fill);
  }

  lemma AllIsCode(t: string)
    requires forall i :: 0 <= i < |t| ==> IsBase64(t[i])
    ensures AllCode(t)
  {
  }

  // ----- the two loops -----

  lemma QuadChars(a: Byte, b: Byte, c: Byte)
    ensures Sextet0(a) < 64 && Sextet1(a, b) < 64 && Sextet2(b, c) < 64 && Sextet3(c) < 64
    ensures Quad(a, b, c) == [Char(Sextet0(a)), Char(Sextet1(a, b)), Char(Sextet2(b, c)), Char(Sextet3(c))]
  {
    hide Sextet0, Sextet1, Sextet2, Sextet3, Char;
    SextetsFit(a, b, c);
  }

  /** Four sextets from the three-byte buffer. */
  method EncodeGroup(group: array<Byte>, quad: array<Byte>)
    requires group.Length == 3 && quad.Length == 4 && group != quad
    modifies quad
    ensures forall j :: 0 <= j < 4 ==> quad[j] < 64
    ensures [Char(quad[0]), Char(quad[1]), Char(quad[2]), Char(quad[3])] == Quad(group[0], group[1], group[2])
  {
    var a, b, c := group[0], group[1], group[2];
    QuadChars(a, b, c);
    Bits(a, b, c);
    hide *;
    quad[0] := (a & 0xfc) >> 2;
    quad[1] := ((a & 0x03) << 4) + ((b & 0xf0) >> 4);
    quad[2] := ((b & 0x0f) << 2) + ((c & 0xc0) >> 6);
    quad[3] := c & 0x3f;
  }

  lemma Bits(a: Byte, b: Byte, c: Byte)
    ensures (a & 0xfc) >> 2 == Sextet0(a) && ((a & 0x03) << 4) + ((b & 0xf0) >> 4) == Sextet1(a, b)
    ensures ((b & 0x0f) << 2) + ((c & 0xc0) >> 6) == Sextet2(b, c) && c & 0x3f == Sextet3(c)
  {
  }

  /** ret += base64_chars[quad[j]] for the first characters of a group. */
  method AppendChars(ret: string, quad: array<Byte>, count: nat) returns (r: string)
    requires quad.Length == 4 && count <= 4 && forall j :: 0 <= j < 4 ==> quad[j] < 64
    ensures r == ret + [Char(quad[0]), Char(quad[1]), Char(quad[2]), Char(quad[3])][..count]
  {
    hide Char;
    r := ret;
    ghost var all := [Char(quad[0]), Char(quad[1]), Char(quad[2]), Char(quad[3])];
    for j := 0 to count
      invariant r == ret + all[..j]
    {
      r := r + [Char(quad[j])];
      assert all[..j + 1] == all[..j] + [all[j]];
    }
  }

  lemma NextGroup(s: seq<Byte>, m: nat)
    requires m % 3 == 0 && m + 3 <= |s|
    ensures EncodeFull(s[..m + 3]) == EncodeFull(s[..m]) + Quad(s[m], s[m + 1], s[m + 2])
  {
    hide Quad, EncodeFull;
    EncodeLast(s[..m + 3], m);
    assert s[..m + 3][..m] == s[..m];
  }

  /** base64_encode. */
  method Encode(bytes: seq<Byte>) returns (ret: string)
    ensures ret == Encoded(bytes)
  {
    hide Quad, Char, Sextet0, Sextet1, Sextet2, Sextet3, EncodeFull, EncodeTail;
    ret := [];
    var i := 0;
    var group, quad := new Byte[3], new Byte[4];
    NothingEncoded(bytes[..0]);
    for n := 0 to |bytes|
      invariant 0 <= i < 3 && i == n % 3
      invariant forall j :: 0 <= j < i ==> group[j] == bytes[n - i + j]
      invariant (n - i) % 3 == 0 && ret == EncodeFull(bytes[..n - i])
    {
      group[i] := bytes[n];
      i := i + 1;
      if i == 3 {
        EncodeGroup(group, quad);
        ret := AppendChars(ret, quad, 4);
        NextGroup(bytes, n - 2);
        i := 0;
      }
    }
    var m := |bytes| - i;
    NoTail(bytes[m..]);
    if i > 0 {
      var tail := EncodeRest(group, quad, i, bytes[m..]);
      ret := ret + tail;
    }
  }

  lemma NoTail(s: seq<Byte>)
    ensures s == [] ==> EncodeTail(s) == []
  {
  }

  /** The padded last group: zero bytes are added, and '=' for each of them. */
  method EncodeRest(group: array<Byte>, quad: array<Byte>, count: nat, ghost rest: seq<Byte>) returns (tail: string)
    requires group.Length == 3 && quad.Length == 4 && group != quad && 1 <= count <= 2
    requires |rest| == count && forall j :: 0 <= j < count ==> group[j] == rest[j]
    modifies group, quad
    ensures tail == EncodeTail(rest)
  {
    hide Quad, Char, Sextet0, Sextet1, Sextet2, Sextet3;
    for j := count to 3
      invariant forall k :: 0 <= k < count ==> group[k] == rest[k]
      invariant forall k :: count <= k < j ==> group[k] == 0
    {
      group[j] := 0;
    }
    EncodeGroup(group, quad);
    tail := AppendChars([], quad, count + 1);
    ghost var chars := tail;
    var i := count;
    while i < 3
      invariant count <= i <= 3
      invariant tail == chars + "=="[..i - count]
    {
      tail := tail + "=";
      i := i + 1;
    }
    assert "=="[..2] == "==" && "=="[..1] == "=";
  }

  // ----- decoding -----

  /** Three bytes from the four-character buffer. */
  method DecodeGroup(quad: array<Byte>, group: array<Byte>)
    requires group.Length == 3 && quad.Length == 4 && group != quad
    modifies group
    ensures group[0] == Octet0(quad[0], quad[1]) && group[1] == Octet1(quad[1], quad[2])
    ensures group[2] == Octet2(quad[2], quad[3])
  {
    var p, q, r, s := quad[0], quad[1], quad[2], quad[3];
    OctetBits(p, q, r, s);
    hide *;
    group[0] := (p << 2) + ((q & 0x30) >> 4);
    group[1] := ((q & 0xf) << 4) + ((r & 0x3c) >> 2);
    group[2] := ((r & 0x3) << 6) + s;
  }

  lemma OctetBits(p: Byte, q: Byte, r: Byte, s: Byte)
    ensures (p << 2) + ((q & 0x30) >> 4) == Octet0(p, q) && ((q & 0xf) << 4) + ((r & 0x3c) >> 2) == Octet1(q, r)
    ensures ((r & 0x3) << 6) + s == Octet2(r, s)
  {
  }

  /** Replace every character of the buffer by its position in the alphabet. */
  method FindAll(chars: seq<char>, quad: array<Byte>)
    requires |chars| == 4 && quad.Length == 4
    modifies quad
    ensures forall j :: 0 <= j < 4 ==> quad[j] == Value(chars[j])
  {
    for j := 0 to 4
      invariant forall k :: 0 <= k < j ==> quad[k] == Value(chars[k])
    {
      var v := Find(chars[j]);
      quad[j] := v;
    }
  }

  lemma {:induction false} CodeIs(t: string, n: nat)
    requires n <= |t| && AllCode(t[..n]) && (n == |t| || !IsBase64(t[n]))
    ensures Code(t) == t[..n]
  {
    if n > 0 {
      assert t[..n][0] == t[0];
      assert t[1..][..n - 1] == t[..n][1..];
      CodeIs(t[1..], n - 1);
    }
  }

  lemma NextQuad(t: string, m: nat)
    requires m % 4 == 0 && m + 4 <= |t|
    ensures DecodeFull(t[..m + 4]) == DecodeFull(t[..m]) + Triple(t[m], t[m + 1], t[m + 2], t[m + 3])
  {
    hide Triple, DecodeFull;
    assert t[..m + 4] == t[..m] + t[m..m + 4];
    DecodeLast(t[..m], t[m..m + 4]);
  }

  /** A full buffer of four characters. */
  method DecodeFour(chars: seq<char>, quad: array<Byte>, group: array<Byte>) returns (bytes: seq<Byte>)
    requires |chars| == 4 && group.Length == 3 && quad.Length == 4 && group != quad
    modifies quad, group
    ensures bytes == Triple(chars[0], chars[1], chars[2], chars[3])
  {
    hide Octet0, Octet1, Octet2, Value;
    FindAll(chars, quad);
    DecodeGroup(quad, group);
    bytes := group[..];
  }

  /** The last characters: the buffer is filled up with zeros, which no output
      byte depends on. */
  method DecodeRest(chars: array<char>, quad: array<Byte>, group: array<Byte>, count: nat, ghost rest: string)
    returns (bytes: seq<Byte>)
    requires chars.Length == 4 && group.Length == 3 && quad.Length == 4 && group != quad && 1 <= count < 4
    requires |rest| == count && forall j :: 0 <= j < count ==> chars[j] == rest[j]
    modifies chars, quad, group
    ensures bytes == DecodeTail(rest)
  {
    hide Octet0, Octet1, Octet2, Value;
    for j := count to 4
      invariant forall k :: 0 <= k < count ==> chars[k] == rest[k]
    {
      chars[j] := 0 as char;
    }
    FindAll(chars[..], quad);
    DecodeGroup(quad, group);
    bytes := group[..count - 1];
  }

  /** base64_decode. */
  method Decode(encoded: string) returns (ret: seq<Byte>)
    ensures ret == Decoded(encoded)
  {
    hide IsBase64, DecodeFull, Triple, Code, DecodeTail;
    ret := [];
    var i, n := 0, 0;
    var chars, quad, group := new char[4], new Byte[4], new Byte[3];
    NothingEncoded([]);
    assert encoded[..0] == [];
    while n < |encoded| && encoded[n] != '=' && IsBase64(encoded[n])
      invariant 0 <= n <= |encoded| && 0 <= i < 4 && i == n % 4
      invariant AllCode(encoded[..n])
      invariant forall j :: 0 <= j < i ==> chars[j] == encoded[n - i + j]
      invariant (n - i) % 4 == 0 && ret == DecodeFull(encoded[..n - i])
    {
      chars[i] := encoded[n];
      i, n := i + 1, n + 1;
      if i == 4 {
        var bytes := DecodeFour(chars[..], quad, group);
        ret := ret + bytes;
        NextQuad(encoded, n - 4);
        i := 0;
      }
    }
    PaddingIsNoCode();
    CodeIs(encoded, n);
    ghost var t, m := encoded[..n], n - i;
    assert t[..m] == encoded[..m];
    NoRest(t[m..]);
    if i > 0 {
      var bytes := DecodeRest(chars, quad, group, i, t[m..]);
      ret := ret + bytes;
    }
  }

  lemma NoRest(t: string)
    ensures t == [] ==> DecodeTail(t) == []
  {
  }

  lemma PaddingIsNoCode()
    ensures !IsBase64('=')
  {
  }
}
