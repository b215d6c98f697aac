/**
  Base 64 as sections 4 and 5 of RFC 4648 describe it, and the base64url form that
  extauth/pkg/codeverifier/codeverifier.go:67-73 obtains by rewriting standard base 64.
  */
module Base64 {
  import opened Wrappers

  type byte = b: int | 0 <= b < 256
  type sextet = v: int | 0 <= v < 64

  // ----- Alphabets

  /** Table 1 of RFC 4648. */
  function StdChar(v: sextet): char {
    if v < 26 then 'A' + v as char
    else if v < 52 then 'a' + (v - 26) as char
    else if v < 62 then '0' + (v - 52) as char
    else if v == 62 then '+'
    else '/'
  }

  /** Table 2 of RFC 4648. */
  function UrlChar(v: sextet): char {
    if v < 26 then 'A' + v as char
    else if v < 52 then 'a' + (v - 26) as char
    else if v < 62 then '0' + (v - 52) as char
    else if v == 62 then '-'
    else '_'
  }

  function UrlValue(c: char): Option<sextet> {
    if 'A' <= c <= 'Z' then Some((c - 'A') as int)
    else if 'a' <= c <= 'z' then Some((c - 'a') as int + 26)
    else if '0' <= c <= '9' then Some((c - '0') as int + 52)
    else if c == '-' then Some(62)
    else if c == '_' then Some(63)
    else None
  }

  // ----- The encoder: groups of three bytes, '=' padding

  function Quad(a: byte, b: byte, c: byte): seq<sextet> {
    [a / 4, a % 4 * 16 + b / 16, b % 16 * 4 + c / 64, c % 64]
  }

  function StdEncode(msg: seq<byte>): string {
    if msg == [] then ""
    else if |msg| == 1 then
      var q := Quad(msg[0], 0, 0);
      [StdChar(q[0]), StdChar(q[1]), '=', '=']
    else if |msg| == 2 then
      var q := Quad(msg[0], msg[1], 0);
      [StdChar(q[0]), StdChar(q[1]), StdChar(q[2]), '=']
    else
      var q := Quad(msg[0], msg[1], msg[2]);
      [StdChar(q[0]), StdChar(q[1]), StdChar(q[2]), StdChar(q[3])] + StdEncode(msg[3..])
  }

  /** strings.Replace(s, c, by, -1) for a one-character pattern. */
  function Replace(s: string, c: char, repl: string): string {
    if s == "" then "" else (if s[0] == c then repl else [s[0]]) + Replace(s[1..], c, repl)
  }

  function Rewrite(s: string): string {
    Replace(Replace(Replace(s, '+', "-"), '/', "_"), '=', "")
  }

  function Encode(msg: seq<byte>): string {
    Rewrite(StdEncode(msg))
  }

  // ----- The direct definition: a bit string cut into groups of six, zero-filled at the end

  function ByteBits(b: byte): seq<bool> {
    [b / 128 % 2 == 1, b / 64 % 2 == 1, b / 32 % 2 == 1, b / 16 % 2 == 1,
     b / 8 % 2 == 1, b / 4 % 2 == 1, b / 2 % 2 == 1, b % 2 == 1]
  }

  function Bits(msg: seq<byte>): seq<bool> {
    if msg == [] then [] else ByteBits(msg[0]) + Bits(msg[1..])
  }

  function Bit(bits: seq<bool>, i: nat): int {
    if i < |bits| && bits[i] then 1 else 0
  }

  function SextetAt(bits: seq<bool>, i: nat): sextet {
    32 * Bit(bits, i) + 16 * Bit(bits, i + 1) + 8 * Bit(bits, i + 2)
    + 4 * Bit(bits, i + 3) + 2 * Bit(bits, i + 4) + Bit(bits, i + 5)
  }

  function Sextets(bits: seq<bool>): seq<sextet>
    decreases |bits|
  {
    if bits == [] then []
    else [SextetAt(bits, 0)] + Sextets(if |bits| < 6 then [] else bits[6..])
  }

  function UrlText(vs: seq<sextet>): string {
    seq(|vs|, i requires 0 <= i < |vs| => UrlChar(vs[i]))
  }

  /** The unpadded base64url form of sections 3.2 and 5 of RFC 4648. */
  function UrlForm(msg: seq<byte>): string {
    UrlText(Sextets(Bits(msg)))
  }

  // ----- Decoding

  function Values(s: string): Option<seq<sextet>> {
    if s == "" then Some([])
    else
      var v, rest := UrlValue(s[0]), Values(s[1..]);
      if v.None? || rest.None? then None else Some([v.value] + rest.value)
  }

  function First(u: sextet, v: sextet): byte {
    u * 4 + v / 16
  }

  function Second(v: sextet, w: sextet): byte {
    v % 16 * 16 + w / 4
  }

  function Third(w: sextet, x: sextet): byte {
    w % 4 * 64 + x
  }

  /** Four values carry three bytes; a final two or three carry one or two. */
  function Join(vs: seq<sextet>): Option<seq<byte>> {
    if vs == [] then Some([])
    else if |vs| == 1 then None
    else if |vs| == 2 then Some([First(vs[0], vs[1])])
    else if |vs| == 3 then Some([First(vs[0], vs[1]), Second(vs[1], vs[2])])
    else
      var rest := Join(vs[4..]);
      if rest.None? then None
      else Some([First(vs[0], vs[1]), Second(vs[1], vs[2]), Third(vs[2], vs[3])] + rest.value)
  }

  /** Unpadded base64url decoding; None for a character outside the alphabet or a lone one. */
  function Decode(s: string): Option<seq<byte>> {
    var vs := Values(s);
    if vs.None? then None else Join(vs.value)
  }

  // ----- The rewrites refine the direct definition

  lemma ReplaceHead(s: string, c: char, repl: string)
    requires s != ""
    ensures Replace(s, c, repl) == (if s[0] == c then repl else [s[0]]) + Replace(s[1..], c, repl)
  {
  }

  lemma ConcatAssociates(x: string, y: string, z: string)
    ensures x + (y + z) == (x + y) + z
  {
  }

  lemma {:induction false} ReplaceConcat(a: string, b: string, c: char, repl: string)
    ensures Replace(a + b, c, repl) == Replace(a, c, repl) + Replace(b, c, repl)
  {
    if a == "" {
      assert a + b == b;
    } else {
      hide Replace;
      ReplaceConcat(a[1..], b, c, repl);
      assert (a + b)[0] == a[0] && (a + b)[1..] == a[1..] + b;
      ReplaceHead(a + b, c, repl);
      ReplaceHead(a, c, repl);
      ConcatAssociates(if a[0] == c then repl else [a[0]], Replace(a[1..], c, repl), Replace(b, c, repl));
    }
  }

  lemma RewriteConcat(a: string, b: string)
    ensures Rewrite(a + b) == Rewrite(a) + Rewrite(b)
  {
    ReplaceConcat(a, b, '+', "-");
    ReplaceConcat(Replace(a, '+', "-"), Replace(b, '+', "-"), '/', "_");
    ReplaceConcat(Replace(Replace(a, '+', "-"), '/', "_"), Replace(Replace(b, '+', "-"), '/', "_"), '=', "");
  }

  lemma ReplaceOne(x: char, c: char, repl: string)
    ensures Replace([x], c, repl) == if x == c then repl else [x]
  {
    assert [x][1..] == "";
  }

  lemma RewriteChar(v: sextet)
    ensures Rewrite([StdChar(v)]) == [UrlChar(v)] && Rewrite("=") == ""
  {
    var c := StdChar(v);
    ReplaceOne(c, '+', "-");
    ReplaceOne(if c == '+' then '-' else c, '/', "_");
    ReplaceOne(UrlChar(v), '=', "");
    ReplaceOne('=', '+', "-");
    ReplaceOne('=', '/', "_");
    ReplaceOne('=', '=', "");
  }

  lemma RewritePad()
    ensures Rewrite("") == "" && Rewrite("=") == "" && Rewrite("==") == ""
  {
    RewriteChar(0);
    RewriteConcat("=", "=");
    assert "=" + "=" == "==";
  }

  lemma {:induction false} RewriteText(vs: seq<sextet>, pad: string)
    requires pad == "" || pad == "=" || pad == "=="
    ensures Rewrite(StdText(vs) + pad) == UrlText(vs)
  {
    hide Rewrite, StdChar, UrlChar;
    if vs == [] {
      assert StdText(vs) + pad == pad;
      RewritePad();
    } else {
      RewriteText(vs[1..], pad);
      RewriteChar(vs[0]);
      RewriteConcat([StdChar(vs[0])], StdText(vs[1..]) + pad);
      assert StdText(vs) + pad == [StdChar(vs[0])] + (StdText(vs[1..]) + pad);
    }
  }

  function StdText(vs: seq<sextet>): string {
    seq(|vs|, i requires 0 <= i < |vs| => StdChar(vs[i]))
  }

  /** The values the encoder emits, before any alphabet. */
  function Groups(msg: seq<byte>): seq<sextet> {
    if msg == [] then []
    else if |msg| == 1 then Quad(msg[0], 0, 0)[..2]
    else if |msg| == 2 then Quad(msg[0], msg[1], 0)[..3]
    else Quad(msg[0], msg[1], msg[2]) + Groups(msg[3..])
  }

  function Padding(n: nat): string {
    if n % 3 == 1 then "==" else if n % 3 == 2 then "=" else ""
  }

  lemma {:induction false} StdEncodeGroups(msg: seq<byte>)
    ensures StdEncode(msg) == StdText(Groups(msg)) + Padding(|msg|)
  {
    hide StdText, StdChar;
    StdTextShort(Groups(msg));
    if |msg| >= 3 {
      hide Quad;
      var quad := Quad(msg[0], msg[1], msg[2]);
      StdEncodeGroups(msg[3..]);
      StdTextConcat(quad, Groups(msg[3..]));
      StdTextShort(quad);
      ConcatAssociates(StdText(quad), StdText(Groups(msg[3..])), Padding(|msg|));
    }
  }

  lemma StdTextShort(u: seq<sextet>)
    ensures u == [] ==> StdText(u) == ""
    ensures |u| == 2 ==> StdText(u) == [StdChar(u[0]), StdChar(u[1])]
    ensures |u| == 3 ==> StdText(u) == [StdChar(u[0]), StdChar(u[1]), StdChar(u[2])]
    ensures |u| == 4 ==> StdText(u) == [StdChar(u[0]), StdChar(u[1]), StdChar(u[2]), StdChar(u[3])]
  {
  }

  lemma StdTextConcat(u: seq<sextet>, v: seq<sextet>)
    ensures StdText(u + v) == StdText(u) + StdText(v)
  {
  }

  /** A bit string starting at bit `i` with the eight bits of `b`. */
  ghost predicate HasByte(bits: seq<bool>, i: nat, b: byte) {
    i + 8 <= |bits| && forall k :: 0 <= k < 8 ==> bits[i + k] == ByteBits(b)[k]
  }

  lemma ByteParts(bits: seq<bool>, i: nat, b: byte)
    requires HasByte(bits, i, b)
    ensures 2 * Bit(bits, i) + Bit(bits, i + 1) == b / 64
    ensures 8 * Bit(bits, i) + 4 * Bit(bits, i + 1) + 2 * Bit(bits, i + 2) + Bit(bits, i + 3) == b / 16
    ensures SextetAt(bits, i) == b / 4
    ensures 2 * Bit(bits, i + 6) + Bit(bits, i + 7) == b % 4
    ensures 8 * Bit(bits, i + 4) + 4 * Bit(bits, i + 5) + 2 * Bit(bits, i + 6) + Bit(bits, i + 7) == b % 16
    ensures SextetAt(bits, i + 2) == b % 64
  {
    BitsAre(bits, i, b);
    Halves(b);
  }

  lemma BitsAre(bits: seq<bool>, i: nat, b: byte)
    requires HasByte(bits, i, b)
    ensures Bit(bits, i) == b / 128 % 2 && Bit(bits, i + 1) == b / 64 % 2
    ensures Bit(bits, i + 2) == b / 32 % 2 && Bit(bits, i + 3) == b / 16 % 2
    ensures Bit(bits, i + 4) == b / 8 % 2 && Bit(bits, i + 5) == b / 4 % 2
    ensures Bit(bits, i + 6) == b / 2 % 2 && Bit(bits, i + 7) == b % 2
  {
    var x := ByteBits(b);
    assert bits[i] == x[0] && bits[i + 1] == x[1] && bits[i + 2] == x[2] && bits[i + 3] == x[3];
    assert bits[i + 4] == x[4] && bits[i + 5] == x[5] && bits[i + 6] == x[6] && bits[i + 7] == x[7];
  }

  /** A byte is rebuilt from its halvings. */
  lemma Halves(b: byte)
    ensures b / 128 % 2 == b / 128 && b / 64 == 2 * (b / 128) + b / 64 % 2 && b / 32 == 2 * (b / 64) + b / 32 % 2
    ensures b / 16 == 2 * (b / 32) + b / 16 % 2 && b / 8 == 2 * (b / 16) + b / 8 % 2
    ensures b / 4 == 2 * (b / 8) + b / 4 % 2 && b / 2 == 2 * (b / 4) + b / 2 % 2 && b == 2 * (b / 2) + b % 2
  {
  }

  lemma Shift(bits: seq<bool>, k: nat, i: nat)
    requires k <= |bits|
    ensures SextetAt(bits[k..], i) == SextetAt(bits, k + i)
  {
    assert forall j: nat :: Bit(bits[k..], j) == Bit(bits, k + j);
  }

  /** The group at bit `k`, and what follows it. */
  lemma CutAt(bits: seq<bool>, k: nat)
    requires k + 6 <= |bits|
    ensures Sextets(bits[k..]) == [SextetAt(bits, k)] + Sextets(bits[k + 6..])
  {
    Shift(bits, k, 0);
    assert bits[k..][6..] == bits[k + 6..];
  }

  /** The last group is filled up with zero bits. */
  lemma CutLast(bits: seq<bool>, k: nat)
    requires k < |bits| < k + 6
    ensures Sextets(bits[k..]) == [SextetAt(bits, k)]
  {
    Shift(bits, k, 0);
    assert Sextets([]) == [];
  }

  lemma {:induction false} GroupsAreSextets(msg: seq<byte>)
    ensures Groups(msg) == Sextets(Bits(msg))
  {
    var bits := Bits(msg);
    if |msg| == 1 {
      assert bits == ByteBits(msg[0]) + Bits(msg[1..]) && msg[1..] == [];
      OneByte(msg[0], bits);
    } else if |msg| == 2 {
      BitsOfTwo(msg);
      TwoBytes(msg[0], msg[1], bits);
    } else if |msg| >= 3 {
      GroupsAreSextets(msg[3..]);
      BitsOfThree(msg);
      ThreeBytes(msg[0], msg[1], msg[2], bits);
    }
  }

  lemma BitsOfTwo(msg: seq<byte>)
    requires |msg| >= 2
    ensures Bits(msg) == ByteBits(msg[0]) + ByteBits(msg[1]) + Bits(msg[2..])
    ensures HasByte(Bits(msg), 0, msg[0]) && HasByte(Bits(msg), 8, msg[1])
  {
    hide ByteBits;
    BitsLength(msg[0]);
    BitsLength(msg[1]);
    assert Bits(msg[1..]) == ByteBits(msg[1..][0]) + Bits(msg[1..][1..]);
    assert msg[1..][1..] == msg[2..];
  }

  lemma BitsOfThree(msg: seq<byte>)
    requires |msg| >= 3
    ensures HasByte(Bits(msg), 0, msg[0]) && HasByte(Bits(msg), 8, msg[1]) && HasByte(Bits(msg), 16, msg[2])
    ensures Bits(msg)[24..] == Bits(msg[3..])
  {
    hide ByteBits;
    BitsOfTwo(msg);
    BitsLength(msg[0]);
    BitsLength(msg[1]);
    BitsLength(msg[2]);
    assert Bits(msg[2..]) == ByteBits(msg[2]) + Bits(msg[3..]) by {
      assert msg[2..][1..] == msg[3..];
    }
    hide Bits;
    Placed(ByteBits(msg[0]), ByteBits(msg[1]), ByteBits(msg[2]), Bits(msg[3..]));
  }

  lemma Placed(x: seq<bool>, y: seq<bool>, z: seq<bool>, rest: seq<bool>)
    requires |x| == |y| == |z| == 8
    ensures forall k :: 0 <= k < 8 ==> (x + y + (z + rest))[16 + k] == z[k]
    ensures (x + y + (z + rest))[24..] == rest
  {
  }

  lemma BitsLength(b: byte)
    ensures |ByteBits(b)| == 8
  {
  }

  lemma OneByte(a: byte, bits: seq<bool>)
    requires |bits| == 8 && HasByte(bits, 0, a)
    ensures Sextets(bits) == Quad(a, 0, 0)[..2]
  {
    ByteParts(bits, 0, a);
    assert bits[0..] == bits;
    CutAt(bits, 0);
    CutLast(bits, 6);
  }

  lemma TwoBytes(a: byte, b: byte, bits: seq<bool>)
    requires |bits| == 16 && HasByte(bits, 0, a) && HasByte(bits, 8, b)
    ensures Sextets(bits) == Quad(a, b, 0)[..3]
  {
    hide Sextets, HasByte;
    assert SextetAt(bits, 0) == a / 4 && SextetAt(bits, 6) == a % 4 * 16 + b / 16 && SextetAt(bits, 12) == b % 16 * 4 by {
      ByteParts(bits, 0, a);
      ByteParts(bits, 8, b);
    }
    hide SextetAt;
    assert bits[0..] == bits;
    CutAt(bits, 0);
    CutAt(bits, 6);
    CutLast(bits, 12);
  }

  lemma ThreeBytes(a: byte, b: byte, c: byte, bits: seq<bool>)
    requires |bits| >= 24 && HasByte(bits, 0, a) && HasByte(bits, 8, b) && HasByte(bits, 16, c)
    ensures Sextets(bits) == Quad(a, b, c) + Sextets(bits[24..])
  {
    SextetValues(a, b, c, bits);
    hide Sextets, SextetAt, Quad, HasByte;
    assert bits[0..] == bits;
    CutAt(bits, 0);
    CutAt(bits, 6);
    CutAt(bits, 12);
    CutAt(bits, 18);
    Four(SextetAt(bits, 0), SextetAt(bits, 6), SextetAt(bits, 12), SextetAt(bits, 18), Sextets(bits[24..]));
  }

  lemma Four(a: sextet, b: sextet, c: sextet, d: sextet, s: seq<sextet>)
    ensures [a] + ([b] + ([c] + ([d] + s))) == [a, b, c, d] + s
  {
  }

  lemma SextetValues(a: byte, b: byte, c: byte, bits: seq<bool>)
    requires |bits| >= 24 && HasByte(bits, 0, a) && HasByte(bits, 8, b) && HasByte(bits, 16, c)
    ensures Quad(a, b, c) == [SextetAt(bits, 0), SextetAt(bits, 6), SextetAt(bits, 12), SextetAt(bits, 18)]
  {
    hide Bit, HasByte;
    assert SextetAt(bits, 0) == a / 4 by {
      ByteParts(bits, 0, a);
    }
    assert SextetAt(bits, 6) == a % 4 * 16 + b / 16 by {
      ByteParts(bits, 0, a);
      ByteParts(bits, 8, b);
    }
    assert SextetAt(bits, 12) == b % 16 * 4 + c / 64 by {
      ByteParts(bits, 8, b);
      ByteParts(bits, 16, c);
    }
    assert SextetAt(bits, 18) == c % 64 by {
      ByteParts(bits, 16, c);
    }
    hide SextetAt;
  }

  /** The three rewrites of padded standard base 64 give the unpadded base64url form. */
  lemma EncodeIsUrlForm(msg: seq<byte>)
    ensures Encode(msg) == UrlForm(msg)
  {
    StdEncodeGroups(msg);
    RewriteText(Groups(msg), Padding(|msg|));
    GroupsAreSextets(msg);
  }

  // ----- Round trip, length and alphabet

  lemma UrlRoundTrip(v: sextet)
    ensures UrlValue(UrlChar(v)) == Some(v)
  {
  }

  lemma QuadRoundTrip(a: byte, b: byte, c: byte)
    ensures
      var q := Quad(a, b, c);
      |q| == 4 && First(q[0], q[1]) == a && Second(q[1], q[2]) == b && Third(q[2], q[3]) == c
  {
  }

  lemma {:induction false} ValuesOfText(vs: seq<sextet>)
    ensures Values(UrlText(vs)) == Some(vs)
  {
    if vs != [] {
      ValuesOfText(vs[1..]);
      UrlRoundTrip(vs[0]);
      assert UrlText(vs)[0] == UrlChar(vs[0]) && vs == [vs[0]] + vs[1..];
      assert UrlText(vs)[1..] == UrlText(vs[1..]);
    }
  }

  lemma {:induction false} JoinGroups(msg: seq<byte>)
    ensures Join(Groups(msg)) == Some(msg)
  {
    hide Quad, First, Second, Third;
    if msg != [] {
      QuadRoundTrip(msg[0], if |msg| > 1 then msg[1] else 0, if |msg| > 2 then msg[2] else 0);
    }
    if |msg| == 1 {
      assert msg == [msg[0]];
    } else if |msg| == 2 {
      assert msg == [msg[0], msg[1]];
    } else if |msg| >= 3 {
      JoinGroups(msg[3..]);
      assert Groups(msg)[4..] == Groups(msg[3..]);
      assert msg == [msg[0], msg[1], msg[2]] + msg[3..];
    }
  }

  /** Decoding undoes encoding, for every byte sequence. */
  lemma DecodeUndoesEncode(msg: seq<byte>)
    ensures Decode(Encode(msg)) == Some(msg)
  {
    EncodeIsUrlForm(msg);
    GroupsAreSextets(msg);
    ValuesOfText(Groups(msg));
    JoinGroups(msg);
  }

  lemma EncodeIsInjective(x: seq<byte>, y: seq<byte>)
    requires Encode(x) == Encode(y)
    ensures x == y
  {
    DecodeUndoesEncode(x);
    DecodeUndoesEncode(y);
  }

  /** Section 2.3 of RFC 3986, which section 4.1 of RFC 7636 refers to. */
  predicate Unreserved(c: char) {
    'A' <= c <= 'Z' || 'a' <= c <= 'z' || '0' <= c <= '9' || c == '-' || c == '.' || c == '_' || c == '~'
  }

  lemma {:induction false} GroupsLength(msg: seq<byte>)
    ensures |Groups(msg)| == (4 * |msg| + 2) / 3
  {
    if |msg| >= 3 {
      GroupsLength(msg[3..]);
    }
  }

  /** ceil(4n / 3) characters, all of them unreserved. */
  lemma EncodeShape(msg: seq<byte>)
    ensures |Encode(msg)| == (4 * |msg| + 2) / 3
    ensures forall i :: 0 <= i < |Encode(msg)| ==> Unreserved(Encode(msg)[i])
  {
    EncodeIsUrlForm(msg);
    GroupsAreSextets(msg);
    GroupsLength(msg);
  }

  // ----- The tables and the test vectors of RFC 4648

  const UPPER := "ABCDEFGHIJKLMNOPQRSTUVWXYZ"
  const LOWER := "abcdefghijklmnopqrstuvwxyz"
  const DIGITS := "0123456789"

  lemma UpperAt(i: int)
    requires 0 <= i < 26
    ensures UPPER[i] == 'A' + i as char
  {
    assert UPPER[0] == 'A' && UPPER[1] == 'B' && UPPER[2] == 'C' && UPPER[3] == 'D' && UPPER[4] == 'E';
    assert UPPER[5] == 'F' && UPPER[6] == 'G' && UPPER[7] == 'H' && UPPER[8] == 'I' && UPPER[9] == 'J';
    assert UPPER[10] == 'K' && UPPER[11] == 'L' && UPPER[12] == 'M' && UPPER[13] == 'N' && UPPER[14] == 'O';
    assert UPPER[15] == 'P' && UPPER[16] == 'Q' && UPPER[17] == 'R' && UPPER[18] == 'S' && UPPER[19] == 'T';
    assert UPPER[20] == 'U' && UPPER[21] == 'V' && UPPER[22] == 'W' && UPPER[23] == 'X' && UPPER[24] == 'Y';
    assert UPPER[25] == 'Z';
  }

  lemma LowerAt(i: int)
    requires 0 <= i < 26
    ensures LOWER[i] == 'a' + i as char
  {
    assert LOWER[0] == 'a' && LOWER[1] == 'b' && LOWER[2] == 'c' && LOWER[3] == 'd' && LOWER[4] == 'e';
    assert LOWER[5] == 'f' && LOWER[6] == 'g' && LOWER[7] == 'h' && LOWER[8] == 'i' && LOWER[9] == 'j';
    assert LOWER[10] == 'k' && LOWER[11] == 'l' && LOWER[12] == 'm' && LOWER[13] == 'n' && LOWER[14] == 'o';
    assert LOWER[15] == 'p' && LOWER[16] == 'q' && LOWER[17] == 'r' && LOWER[18] == 's' && LOWER[19] == 't';
    assert LOWER[20] == 'u' && LOWER[21] == 'v' && LOWER[22] == 'w' && LOWER[23] == 'x' && LOWER[24] == 'y';
    assert LOWER[25] == 'z';
  }

  lemma DigitAt(i: int)
    requires 0 <= i < 10
    ensures DIGITS[i] == '0' + i as char
  {
    assert DIGITS[0] == '0' && DIGITS[1] == '1' && DIGITS[2] == '2' && DIGITS[3] == '3' && DIGITS[4] == '4';
    assert DIGITS[5] == '5' && DIGITS[6] == '6' && DIGITS[7] == '7' && DIGITS[8] == '8' && DIGITS[9] == '9';
  }

  /** Tables 1 and 2. */
  lemma AlphabetsAreTheTables(v: sextet)
    ensures StdChar(v) == (UPPER + LOWER + DIGITS + "+/")[v]
    ensures UrlChar(v) == (UPPER + LOWER + DIGITS + "-_")[v]
  {
    if v < 26 {
      UpperAt(v);
    } else if v < 52 {
      LowerAt(v - 26);
    } else if v < 62 {
      DigitAt(v - 52);
    }
  }

  lemma EncodeIs(msg: seq<byte>)
    ensures Encode(msg) == UrlText(Groups(msg))
  {
    EncodeIsUrlForm(msg);
    GroupsAreSextets(msg);
  }

  /** Section 10, for "f" to "foobar", without the padding. */
  lemma TestVectors()
    ensures Encode([102]) == "Zg"
    ensures Encode([102, 111]) == "Zm8"
    ensures Encode([102, 111, 111]) == "Zm9v"
    ensures Encode([102, 111, 111, 98, 97, 114]) == "Zm9vYmFy"
  {
    hide Encode;
    EncodeIs([102]);
    EncodeIs([102, 111]);
    EncodeIs([102, 111, 111]);
    EncodeIs([102, 111, 111, 98, 97, 114]);
    Foobar();
  }

  lemma Foobar()
    ensures UrlText(Groups([102])) == "Zg" && UrlText(Groups([102, 111])) == "Zm8"
    ensures UrlText(Groups([102, 111, 111])) == "Zm9v"
    ensures UrlText(Groups([102, 111, 111, 98, 97, 114])) == "Zm9vYmFy"
  {
    assert [102, 111, 111][3..] == [] && [98, 97, 114][3..] == [];
    assert [102, 111, 111, 98, 97, 114][3..] == [98, 97, 114];
    assert Quad(102, 111, 111) == [25, 38, 61, 47] && Quad(98, 97, 114) == [24, 38, 5, 50];
    assert Groups([98, 97, 114]) == [24, 38, 5, 50];
    assert Groups([102, 111, 111, 98, 97, 114]) == [25, 38, 61, 47, 24, 38, 5, 50];
  }
}
