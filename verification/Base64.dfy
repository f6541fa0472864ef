/** Standard base64 with padding (section 4 of RFC 4648), decoded as Go's StdEncoding does:
    carriage returns and line feeds are skipped, padding may only close the text, and the
    unused bits before padding are not checked. */
module Base64 {
  import opened Bytes

  function Digit(v: int): (c: char)
    requires 0 <= v < 64
    ensures DigitValue(c) == v && c != '=' && c != '\r' && c != '\n'
  {
    if v < 26 then 'A' + v as char
    else if v < 52 then 'a' + (v - 26) as char
    else if v < 62 then '0' + (v - 52) as char
    else if v == 62 then '+' else '/'
  }

  /** The six-bit value of a digit, or -1. */
  function DigitValue(c: char): (v: int)
    ensures -1 <= v < 64
  {
    if 'A' <= c <= 'Z' then (c - 'A') as int
    else if 'a' <= c <= 'z' then (c - 'a') as int + 26
    else if '0' <= c <= '9' then (c - '0') as int + 52
    else if c == '+' then 62
    else if c == '/' then 63
    else -1
  }

  /** The digits are the letters, figures and signs of section 4 of RFC 4648, by their codes, and no other
      character is one. */
  lemma DigitsAre(v: int, c: char)
    requires 0 <= v < 64
    ensures Digit(v) as int == if v < 26 then 65 + v else if v < 52 then 71 + v else if v < 62 then v - 4
                               else if v == 62 then 43 else 47
    ensures var code := c as int;
            DigitValue(c) < 0 <==> !(65 <= code <= 90 || 97 <= code <= 122 || 47 <= code <= 57 || code == 43)
    ensures DigitValue(c) >= 0 ==> Digit(DigitValue(c)) == c
  {
  }

  function Encode(s: seq<byte>): string {
    if |s| < 3 then Tail(s) else Group(s[0], s[1], s[2]) + Encode(s[3..])
  }

  /** The last, incomplete group with its padding. */
  function Tail(s: seq<byte>): (t: string)
    requires |s| < 3
    ensures s == [] ==> t == []
    ensures s != [] ==> |t| == 4 && t[3] == '=' && DigitValue(t[0]) >= 0 && DigitValue(t[1]) >= 0
                        && DigitValue(t[0]) * 4 + DigitValue(t[1]) / 16 == s[0]
    ensures |s| == 1 ==> t[2] == '='
    ensures |s| == 2 ==> DigitValue(t[2]) >= 0 && t[2] != '='
                         && DigitValue(t[1]) % 16 * 16 + DigitValue(t[2]) / 4 == s[1]
  {
    if |s| == 0 then []
    else if |s| == 1 then [Digit(s[0] / 4), Digit(s[0] % 4 * 16), '=', '=']
    else [Digit(s[0] / 4), Digit(s[0] % 4 * 16 + s[1] / 16), Digit(s[1] % 16 * 4), '=']
  }

  /** Three bytes as four digits. */
  function Group(x: byte, y: byte, z: byte): (g: string)
    ensures |g| == 4
    ensures forall i :: 0 <= i < 4 ==> DigitValue(g[i]) >= 0 && g[i] != '='
    ensures DigitValue(g[0]) * 4 + DigitValue(g[1]) / 16 == x
    ensures DigitValue(g[1]) % 16 * 16 + DigitValue(g[2]) / 4 == y
    ensures DigitValue(g[2]) % 4 * 64 + DigitValue(g[3]) == z
  {
    [Digit(x / 4), Digit(x % 4 * 16 + y / 16), Digit(y % 16 * 4 + z / 64), Digit(z % 64)]
  }

  /** The text without the characters the decoder skips. */
  function Strip(t: string): string {
    if t == [] then []
    else if t[0] == '\r' || t[0] == '\n' then Strip(t[1..])
    else [t[0]] + Strip(t[1..])
  }

  function Decode(t: string): Option<seq<byte>> {
    DecodeQuanta(Strip(t))
  }

  function DecodeQuanta(t: string): Option<seq<byte>> {
    if t == [] then Some([])
    else if |t| < 4 then None
    else
      var a, b, c, d := DigitValue(t[0]), DigitValue(t[1]), DigitValue(t[2]), DigitValue(t[3]);
      if a < 0 || b < 0 then None
      else if t[2] == '=' then
        if t[3] == '=' && |t| == 4 then Some([a * 4 + b / 16]) else None
      else if c < 0 then None
      else if t[3] == '=' then
        if |t| == 4 then Some([a * 4 + b / 16, b % 16 * 16 + c / 4]) else None
      else if d < 0 then None
      else
        match DecodeQuanta(t[4..])
        case None => None
        case Some(rest) => Some([a * 4 + b / 16, b % 16 * 16 + c / 4, c % 4 * 64 + d] + rest)
  }

  lemma {:induction false} StripEncode(s: seq<byte>)
    ensures Strip(Encode(s)) == Encode(s)
  {
    if |s| >= 3 {
      StripEncode(s[3..]);
    }
    var e := Encode(s);
    if |e| > 0 {
      assert e == [e[0]] + ([e[1]] + ([e[2]] + ([e[3]] + e[4..])));
      assert e[1..][1..] == e[2..] && e[2..][1..] == e[3..] && e[3..][1..] == e[4..];
      assert |s| >= 3 ==> e[4..] == Encode(s[3..]);
      assert |s| < 3 ==> e[4..] == [];
      assert Strip(e[4..]) == e[4..];
      assert Strip(e[3..]) == e[3..];
      assert Strip(e[2..]) == e[2..];
      assert Strip(e[1..]) == e[1..];
    }
  }

  lemma DecodeGroup(x: byte, y: byte, z: byte, t: string)
    requires DecodeQuanta(t).Some?
    ensures DecodeQuanta(Group(x, y, z) + t) == Some([x, y, z] + DecodeQuanta(t).value)
  {
    FourThen(Group(x, y, z), t);
    DecodeFour(Group(x, y, z) + t, x, y, z);
  }

  lemma DecodeFour(s: string, x: byte, y: byte, z: byte)
    requires |s| >= 4 && s[2] != '=' && s[3] != '=' && DecodeQuanta(s[4..]).Some?
    requires forall i :: 0 <= i < 4 ==> DigitValue(s[i]) >= 0
    requires DigitValue(s[0]) * 4 + DigitValue(s[1]) / 16 == x
    requires DigitValue(s[1]) % 16 * 16 + DigitValue(s[2]) / 4 == y
    requires DigitValue(s[2]) % 4 * 64 + DigitValue(s[3]) == z
    ensures DecodeQuanta(s) == Some([x, y, z] + DecodeQuanta(s[4..]).value)
  {
  }

  lemma FourThen(g: string, t: string)
    requires |g| == 4
    ensures var s := g + t; s[0] == g[0] && s[1] == g[1] && s[2] == g[2] && s[3] == g[3] && s[4..] == t
  {
  }

  lemma DecodeTail(s: seq<byte>, t: string)
    requires 0 < |s| < 3 && t == Tail(s)
    ensures DecodeQuanta(t) == Some(s)
  {
    assert s == if |s| == 1 then [s[0]] else [s[0], s[1]];
  }

  lemma {:induction false} DecodeQuantaEncode(s: seq<byte>)
    ensures DecodeQuanta(Encode(s)) == Some(s)
  {
    if s == [] {
    } else if |s| < 3 {
      DecodeTail(s, Encode(s));
    } else {
      DecodeQuantaEncode(s[3..]);
      DecodeGroup(s[0], s[1], s[2], Encode(s[3..]));
      assert s == [s[0], s[1], s[2]] + s[3..];
    }
  }

  /** Decoding inverts encoding. */
  lemma DecodeEncode(s: seq<byte>)
    ensures Decode(Encode(s)) == Some(s)
  {
    StripEncode(s);
    DecodeQuantaEncode(s);
  }

  /** The digits of the whole groups `a`, put before the text `t`. */
  function Onto(a: seq<byte>, t: string): string
    requires |a| % 3 == 0
  {
    if a == [] then t else Group(a[0], a[1], a[2]) + Onto(a[3..], t)
  }

  lemma {:induction false} EncodeIsOnto(a: seq<byte>, b: seq<byte>)
    requires |a| % 3 == 0
    ensures Encode(a + b) == Onto(a, Encode(b))
  {
    var ab := a + b;
    if a == [] {
      assert ab == b;
    } else {
      assert ab[3..] == a[3..] + b;
      EncodeIsOnto(a[3..], b);
    }
  }

  lemma {:induction false} OntoIsConcat(a: seq<byte>, t: string)
    requires |a| % 3 == 0
    ensures Onto(a, t) == Encode(a) + t
  {
    if a != [] {
      OntoIsConcat(a[3..], t);
      Assoc(Group(a[0], a[1], a[2]), Encode(a[3..]), t);
    }
  }

  /** A chunk of whole three-byte groups can be encoded apart from what follows it. */
  lemma EncodeConcat(a: seq<byte>, b: seq<byte>)
    requires |a| % 3 == 0
    ensures Encode(a + b) == Encode(a) + Encode(b)
  {
    EncodeIsOnto(a, b);
    OntoIsConcat(a, Encode(b));
  }

  lemma {:induction false} StripAppend(a: string, b: string)
    ensures Strip(a + b) == Strip(a) + Strip(b)
  {
    if a == "" {
      assert a + b == b;
    } else {
      ConsAppend(a, b);
      StripAppend(a[1..], b);
      if a[0] != '\r' && a[0] != '\n' {
        Assoc([a[0]], Strip(a[1..]), Strip(b));
      }
    }
  }

  /** Line breaks anywhere in the text change nothing. */
  lemma {:induction false} BreaksIgnored(a: string, c: char, b: string)
    requires c == '\r' || c == '\n'
    ensures Decode(a + [c] + b) == Decode(a + b)
  {
    StripAppend(a + [c], b);
    StripAppend(a, [c]);
    StripAppend(a, b);
    assert Strip([c]) == [] && Strip(a) + [] == Strip(a);
  }
}
