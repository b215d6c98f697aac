/** extauth/pkg/codeverifier/codeverifier.go: PKCE code verifiers and challenges. */
module CodeVerifier {
  import opened Wrappers
  import opened Base64

  const MIN_LENGTH := 32
  const MAX_LENGTH := 96
  const CS_LEN: byte := 62

  /** The charset: A to Z, a to z, 0 to 9. */
  function CharsetAt(i: int): (c: byte)
    requires 0 <= i < CS_LEN
  {
    (if i < 26 then 'A' + i as char else if i < 52 then 'a' + (i - 26) as char else '0' + (i - 52) as char) as int
  }

  /** Below the largest multiple of 62 a byte can hold; the product is taken in byte arithmetic. */
  predicate Accepted(b: byte) {
    b < CS_LEN * 4 % 256
  }

  function Symbol(b: byte): byte {
    CharsetAt(b % CS_LEN)
  }

  /** The symbols of the accepted bytes, in order. */
  function Symbols(bytes: seq<byte>): (out: seq<byte>)
    ensures |out| <= |bytes|
  {
    if bytes == [] then []
    else
      var last := bytes[|bytes| - 1];
      Symbols(bytes[..|bytes| - 1]) + if Accepted(last) then [Symbol(last)] else []
  }

  /** The random source is the byte sequence `stream`: a chunk that it cannot fill is a read error. */
  ghost predicate Enough(stream: seq<byte>, length: nat) {
    exists chunks: nat :: HoldsEnough(stream, length, chunks)
  }

  ghost predicate HoldsEnough(stream: seq<byte>, length: nat, chunks: nat) {
    chunks * length <= |stream| && |Symbols(stream[..chunks * length])| >= length
  }

  lemma {:induction false} SymbolsPrefix(bytes: seq<byte>, n: nat)
    requires n <= |bytes|
    ensures Symbols(bytes[..n]) <= Symbols(bytes)
  {
    if n < |bytes| {
      SymbolsPrefix(bytes[..|bytes| - 1], n);
      assert bytes[..|bytes| - 1][..n] == bytes[..n];
    } else {
      assert bytes[..n] == bytes;
    }
  }

  lemma SymbolsStep(stream: seq<byte>, k: nat)
    requires k < |stream|
    ensures Symbols(stream[..k + 1]) == Symbols(stream[..k]) + if Accepted(stream[k]) then [Symbol(stream[k])] else []
  {
    assert stream[..k + 1][..k] == stream[..k];
  }

  /** A chunk that cannot be filled ends every hope of enough accepted bytes. */
  lemma RunsDry(stream: seq<byte>, length: nat, chunks: nat)
    requires chunks * length <= |stream| < chunks * length + length
    requires |Symbols(stream[..chunks * length])| < length
    ensures !Enough(stream, length)
  {
    hide Symbols;
    forall k: nat | k * length <= |stream| ensures !HoldsEnough(stream, length, k) {
      FewerChunks(k, chunks, length, |stream|);
      SymbolsPrefix(stream[..chunks * length], k * length);
      assert stream[..chunks * length][..k * length] == stream[..k * length];
    }
  }

  lemma FewerChunks(k: nat, n: nat, length: nat, total: nat)
    requires k * length <= total < n * length + length
    ensures k * length <= n * length
  {
    if k > n {
      MulMonotone(n + 1, k, length);
    } else {
      MulMonotone(k, n, length);
    }
  }

  lemma MulMonotone(a: nat, b: nat, c: nat)
    requires a <= b
    ensures a * c <= b * c
  {
    assert b * c == a * c + (b - a) * c;
  }

  lemma Filled(stream: seq<byte>, length: nat, chunks: nat, used: nat)
    requires chunks * length + length <= |stream| && used <= chunks * length + length
    requires |Symbols(stream[..used])| == length
    ensures Enough(stream, length) && Symbols(stream[..used]) <= Symbols(stream)
  {
    var whole := (chunks + 1) * length;
    assert whole == chunks * length + length;
    SymbolsPrefix(stream, used);
    SymbolsPrefix(stream[..whole], used);
    assert stream[..whole][..used] == stream[..used];
    assert HoldsEnough(stream, length, chunks + 1);
  }

  /** Rejection sampling: reads chunk after chunk until enough bytes are accepted. */
  method RandomBytes(stream: seq<byte>, length: nat) returns (r: Result<seq<byte>, string>)
    requires length > 0
    ensures r.Ok? <==> Enough(stream, length)
    ensures r.Ok? ==> |r.value| == length && r.value <= Symbols(stream)
  {
    hide Symbols, Symbol, Enough;
    var output: seq<byte> := [];
    var pos := 0;
    ghost var chunks := 0;
    assert stream[..0] == [] && Symbols([]) == [] by { NoSymbols(); }
    while true
      invariant pos == chunks * length <= |stream|
      invariant output == Symbols(stream[..pos]) && |output| < length
      decreases |stream| - pos
    {
      if |stream| - pos < length {
        RunsDry(stream, length, chunks);
        return Err("failed to read random bytes");
      }
      var buf := stream[pos..pos + length];
      for i := 0 to length
        invariant output == Symbols(stream[..pos + i]) && |output| < length
      {
        SymbolsStep(stream, pos + i);
        if Accepted(buf[i]) {
          output := output + [Symbol(buf[i])];
          if |output| == length {
            Filled(stream, length, chunks, pos + i + 1);
            return Ok(output);
          }
        }
      }
      NextChunk(chunks, length);
      pos, chunks := pos + length, chunks + 1;
    }
  }

  lemma NextChunk(chunks: nat, length: nat)
    ensures (chunks + 1) * length == chunks * length + length
  {
  }

  lemma NoSymbols()
    ensures Symbols([]) == []
  {
  }

  method CreateCodeVerifierFromBytes(b: seq<byte>) returns (value: string)
    ensures Decode(value) == Some(b)
    ensures |value| == (4 * |b| + 2) / 3
    ensures forall i :: 0 <= i < |value| ==> Unreserved(value[i])
  {
    DecodeUndoesEncode(b);
    EncodeShape(b);
    value := Encode(b);
  }

  /** Fails exactly for a length outside 32..96 or a failing random source; otherwise the verifier
      has the 43 to 128 unreserved characters section 4.1 of RFC 7636 asks for, and carries the
      first `length` symbols drawn. */
  method CreateCodeVerifierWithLength(stream: seq<byte>, length: int) returns (r: Result<string, string>)
    ensures r.Ok? <==> 32 <= length <= 96 && Enough(stream, length)
    ensures r.Ok? ==>
      && |r.value| == (4 * length + 2) / 3 && 43 <= |r.value| <= 128
      && (forall i :: 0 <= i < |r.value| ==> Unreserved(r.value[i]))
      && length <= |Symbols(stream)| && Decode(r.value) == Some(Symbols(stream)[..length])
  {
    if length < MIN_LENGTH || length > MAX_LENGTH {
      return Err("invalid length");
    }
    var buf := RandomBytes(stream, length);
    if buf.Err? {
      return Err("failed to generate random bytes: " + buf.error);
    }
    assert buf.value == Symbols(stream)[..length];
    var value := CreateCodeVerifierFromBytes(buf.value);
    return Ok(value);
  }

  /** The S256 challenge encodes the verifier's SHA-256 digest, which is taken as given. */
  function CodeChallengeS256(digest: seq<byte>): (challenge: string)
    requires |digest| == 32
    ensures |challenge| == 43 && Decode(challenge) == Some(digest)
    ensures forall i :: 0 <= i < 43 ==> Unreserved(challenge[i])
  {
    EncodeShape(digest);
    DecodeUndoesEncode(digest);
    Encode(digest)
  }

  // ----- No symbol is favoured

  lemma CharsetIsInjective(i: int, j: int)
    requires 0 <= i < CS_LEN && 0 <= j < CS_LEN && CharsetAt(i) == CharsetAt(j)
    ensures i == j
  {
  }

  /** Each symbol stands for exactly four accepted byte values. */
  lemma SymbolsAreUniform(i: int)
    requires 0 <= i < CS_LEN
    ensures |set b: byte | Accepted(b) && Symbol(b) == CharsetAt(i)| == 4
  {
    hide Symbol, Accepted;
    var values := set b: byte | Accepted(b) && Symbol(b) == CharsetAt(i);
    var four: set<byte> := {i, i + 62, i + 124, i + 186};
    forall b: byte ensures b in values <==> b in four {
      SymbolOf(b, i);
    }
    assert values == four;
  }

  lemma SymbolOf(b: byte, i: int)
    requires 0 <= i < CS_LEN
    ensures Accepted(b) && Symbol(b) == CharsetAt(i) <==> b in {i, i + 62, i + 124, i + 186}
  {
    if Symbol(b) == CharsetAt(i) {
      CharsetIsInjective(b % CS_LEN, i);
    }
  }

  // ----- What is drawn

  /** "ABC...Zabc...z012...9". */
  const CHARSET := UPPER + LOWER + DIGITS

  /** A byte below 248 is accepted, and stands for the symbol at its remainder by 62. */
  lemma SymbolIsInCharset(b: byte)
    ensures Accepted(b) <==> b < 248
    ensures Symbol(b) as char == CHARSET[b % 62]
  {
    var i := b % 62;
    if i < 26 {
      UpperAt(i);
    } else if i < 52 {
      LowerAt(i - 26);
    } else {
      DigitAt(i - 52);
    }
  }

  /** The positions of the bytes below 248. */
  function Good(bytes: seq<byte>): set<int> {
    set i | 0 <= i < |bytes| && bytes[i] < 248
  }

  lemma GoodNext(bytes: seq<byte>, n: nat)
    requires n < |bytes|
    ensures |Good(bytes[..n + 1])| == |Good(bytes[..n])| + if bytes[n] < 248 then 1 else 0
  {
    assert forall i :: 0 <= i < n ==> bytes[..n + 1][i] == bytes[..n][i];
    assert bytes[..n + 1][n] == bytes[n];
    assert Good(bytes[..n + 1]) == Good(bytes[..n]) + if bytes[n] < 248 then {n as int} else {};
  }

  /** Byte `i` is accepted as the symbol at its place among the accepted ones. */
  ghost predicate Drawn(bytes: seq<byte>, i: nat, symbols: seq<byte>)
    requires i < |bytes|
  {
    && |Good(bytes[..i])| < |symbols|
    && symbols[|Good(bytes[..i])|] as char == CHARSET[bytes[i] % 62]
  }

  lemma DrawnStays(bytes: seq<byte>, i: nat, symbols: seq<byte>, more: seq<byte>)
    requires i < |bytes| && Drawn(bytes, i, symbols)
    ensures Drawn(bytes, i, symbols + more)
  {
    hide Good;
  }

  lemma DrawnLast(bytes: seq<byte>, i: nat, symbols: seq<byte>)
    requires i < |bytes| && |symbols| == |Good(bytes[..i])|
    ensures Drawn(bytes, i, symbols + [Symbol(bytes[i])])
  {
    SymbolIsInCharset(bytes[i]);
    hide Good, Symbol;
  }

  lemma DrawnNext(bytes: seq<byte>, n: nat)
    requires n < |bytes| && |Symbols(bytes[..n])| == |Good(bytes[..n])|
    ensures |Symbols(bytes[..n + 1])| == |Good(bytes[..n + 1])|
    ensures bytes[n] < 248 ==> Drawn(bytes, n, Symbols(bytes[..n + 1]))
    ensures forall i :: 0 <= i < n && Drawn(bytes, i, Symbols(bytes[..n])) ==> Drawn(bytes, i, Symbols(bytes[..n + 1]))
  {
    hide Symbols, Good, Symbol, Accepted, Drawn;
    var before, more := Symbols(bytes[..n]), if bytes[n] < 248 then [Symbol(bytes[n])] else [];
    SymbolIsInCharset(bytes[n]);
    SymbolsStep(bytes, n);
    assert Symbols(bytes[..n + 1]) == before + more;
    GoodNext(bytes, n);
    DrawnLast(bytes, n, before);
    forall i | 0 <= i < n && Drawn(bytes, i, before) ensures Drawn(bytes, i, before + more) {
      DrawnStays(bytes, i, before, more);
    }
  }

  /** There is one symbol for each byte below 248, in the order of the bytes. */
  lemma {:induction false} SymbolsAreTheGoodOnes(bytes: seq<byte>, n: nat)
    requires n <= |bytes|
    ensures |Symbols(bytes[..n])| == |Good(bytes[..n])|
    ensures forall i :: 0 <= i < n && bytes[i] < 248 ==> Drawn(bytes, i, Symbols(bytes[..n]))
  {
    if n > 0 {
      hide Symbols, Good, Drawn;
      SymbolsAreTheGoodOnes(bytes, n - 1);
      DrawnNext(bytes, n - 1);
    } else {
      assert bytes[..0] == [] && Good([]) == {};
    }
  }

  /** The source suffices exactly if some whole number of chunks it can fill has `length` bytes below 248. */
  lemma EnoughMeans(stream: seq<byte>, length: nat)
    ensures Enough(stream, length)
      <==> exists chunks: nat :: GoodChunks(stream, length, chunks)
  {
    hide Symbols, Good;
    forall chunks: nat ensures HoldsEnough(stream, length, chunks) <==> GoodChunks(stream, length, chunks) {
      if chunks * length <= |stream| {
        SymbolsAreTheGoodOnes(stream, chunks * length);
      }
    }
  }

  ghost predicate GoodChunks(stream: seq<byte>, length: nat, chunks: nat) {
    chunks * length <= |stream| && |Good(stream[..chunks * length])| >= length
  }
}
