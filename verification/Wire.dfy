/**
  The byte formats: requests, which the library sends to the kernel and the kernel passes on to the
  memory server, and packets of length-prefixed values.
 */
module Wire {
  import opened Base

  const LIMIT: int := 0x8000_0000

  /** What a 32-bit `int` can hold. */
  predicate Fits(n: int) {
    -LIMIT <= n < LIMIT
  }

  /** The `int` that lies in four bytes, low byte first. */
  function Number(w: Bytes): int
    requires |w| == 4
  {
    var n := w[0] as int + 0x100 * w[1] as int + 0x1_0000 * w[2] as int + 0x100_0000 * w[3] as int;
    if n < LIMIT then n else n - 2 * LIMIT
  }

  lemma Divides(n: int, q: int, r: int)
    requires n == 256 * q + r && 0 <= r < 256
    ensures n / 256 == q && n % 256 == r
  {
  }

  lemma NumberOfWord(n: int)
    requires Fits(n)
    ensures Number(Word(n)) == n
  {
    var a := n / 256;
    var b := a / 256;
    var c := b / 256;
    assert n == 256 * a + n % 256 && a == 256 * b + a % 256 && b == 256 * c + b % 256 && c == 256 * (c / 256) + c % 256;
  }

  lemma WordOfNumber(w: Bytes)
    requires |w| == 4
    ensures Fits(Number(w)) && Word(Number(w)) == w
  {
    var n, top := Number(w), if w[3] < 128 then w[3] as int else w[3] as int - 256;
    Divides(n, w[1] as int + 256 * (w[2] as int + 256 * top), w[0] as int);
    Divides(w[1] as int + 256 * (w[2] as int + 256 * top), w[2] as int + 256 * top, w[1] as int);
    Divides(w[2] as int + 256 * top, top, w[2] as int);
    assert top % 256 == w[3] as int;
  }

  /** Four bytes and a 32-bit integer determine each other. */
  lemma WordIsNumber(n: int, w: Bytes)
    requires |w| == 4
    ensures Fits(n) && w == Word(n) <==> n == Number(w)
  {
    hide Number, Word;
    WordOfNumber(w);
    if Fits(n) {
      NumberOfWord(n);
    }
  }

  // ---------------------------------------------------------------- reading and writing one item

  /** `recv` of an `int`; nothing when the stream ends before. */
  function TakeInt(s: Bytes): Option<(int, Bytes)> {
    if |s| < 4 then None else Some((Number(s[..4]), s[4..]))
  }

  /** `recv` of as many bytes as the length before them says */
  function TakeBytes(s: Bytes, n: int): Option<(Bytes, Bytes)> {
    if n < 0 || |s| < n then None else Some((s[..n], s[n..]))
  }

  function PutInt(n: int, rest: Bytes): Bytes {
    Word(n) + rest
  }

  function PutBytes(b: Bytes, rest: Bytes): Bytes {
    b + rest
  }

  lemma IntTaken(s: Bytes, n: int, rest: Bytes)
    ensures TakeInt(s) == Some((n, rest)) <==> Fits(n) && s == PutInt(n, rest)
  {
    hide Number, Word;
    if |s| >= 4 {
      WordIsNumber(n, s[..4]);
      assert s == s[..4] + s[4..];
    }
    if Fits(n) && s == PutInt(n, rest) {
      assert s[..4] == Word(n) && s[4..] == rest;
    }
  }

  lemma BytesTaken(s: Bytes, n: int, b: Bytes, rest: Bytes)
    ensures TakeBytes(s, n) == Some((b, rest)) <==> |b| == n && s == PutBytes(b, rest)
  {
    if 0 <= n <= |s| {
      assert s == s[..n] + s[n..];
    }
    if |b| == n && s == PutBytes(b, rest) {
      assert s[..n] == b && s[n..] == rest;
    }
  }

  // ---------------------------------------------------------------- requests

  /** The code that comes before a request. */
  const PROCESS: int := 1

  datatype Request = Request(
    kind: int, semOp: int, semValue: int, semName: Bytes, pid: int, status: int,
    value: Bytes, addr: int, memOp: int, ioName: Bytes)

  /** Every number and every length is a 32-bit `int`. */
  predicate WellFormed(r: Request) {
    && Fits(r.kind) && Fits(r.semOp) && Fits(r.semValue) && Fits(r.pid) && Fits(r.status) && Fits(r.addr)
        && Fits(r.memOp)
    && |r.semName| < LIMIT && |r.value| < LIMIT && |r.ioName| < LIMIT
  }

  /** The part of `serializar_instancia` up to the length of the IO name, with `rest` after it */
  function HeadEncoded(r: Request, rest: Bytes): Bytes {
    PutInt(r.kind, PutInt(r.semOp, PutInt(|r.semName|, PutInt(r.semValue, PutBytes(r.semName,
      PutInt(r.pid, PutInt(r.status, PutInt(|r.value|, PutBytes(r.value,
        PutInt(r.addr, PutInt(r.memOp, rest)))))))))))
  }

  function BodyEncoded(r: Request, rest: Bytes): Bytes {
    HeadEncoded(r, PutInt(|r.ioName|, PutBytes(r.ioName, rest)))
  }

  /** `serializar_instancia`, of the library and of the kernel, with `rest` after it */
  function Encoded(r: Request, rest: Bytes): Bytes {
    PutInt(PROCESS, BodyEncoded(r, rest))
  }

  function Encode(r: Request): Bytes {
    Encoded(r, [])
  }

  /** The request and the rest that a string of bytes is the encoding of, if it is one. */
  function Body(s: Bytes): Option<(Request, Bytes)> {
    var kind :- TakeInt(s);
    var semOp :- TakeInt(kind.1);
    var semLength :- TakeInt(semOp.1);
    var semValue :- TakeInt(semLength.1);
    var semName :- TakeBytes(semValue.1, semLength.0);
    var pid :- TakeInt(semName.1);
    var status :- TakeInt(pid.1);
    var size :- TakeInt(status.1);
    var value :- TakeBytes(size.1, size.0);
    var addr :- TakeInt(value.1);
    var memOp :- TakeInt(addr.1);
    var ioLength :- TakeInt(memOp.1);
    var ioName :- TakeBytes(ioLength.1, ioLength.0);
    Some((Request(kind.0, semOp.0, semValue.0, semName.0, pid.0, status.0, value.0, addr.0, memOp.0, ioName.0),
        ioName.1))
  }

  /** The same, with the code before it. */
  function Parse(s: Bytes): Option<(Request, Bytes)> {
    var code :- TakeInt(s);
    if code.0 == PROCESS then Body(code.1) else None
  }

  lemma EncodedIsParsed(r: Request, rest: Bytes)
    requires WellFormed(r)
    ensures Body(BodyEncoded(r, rest)) == Some((r, rest))
  {
    hide TakeInt, TakeBytes, PutInt, PutBytes;
    var s12 := PutBytes(r.ioName, rest);
    var s11 := PutInt(|r.ioName|, s12);
    var s10 := PutInt(r.memOp, s11);
    var s9 := PutInt(r.addr, s10);
    var s8 := PutBytes(r.value, s9);
    var s7 := PutInt(|r.value|, s8);
    var s6 := PutInt(r.status, s7);
    var s5 := PutInt(r.pid, s6);
    var s4 := PutBytes(r.semName, s5);
    var s3 := PutInt(r.semValue, s4);
    var s2 := PutInt(|r.semName|, s3);
    var s1 := PutInt(r.semOp, s2);
    IntTaken(PutInt(r.kind, s1), r.kind, s1);
    IntTaken(s1, r.semOp, s2);
    IntTaken(s2, |r.semName|, s3);
    IntTaken(s3, r.semValue, s4);
    BytesTaken(s4, |r.semName|, r.semName, s5);
    IntTaken(s5, r.pid, s6);
    IntTaken(s6, r.status, s7);
    IntTaken(s7, |r.value|, s8);
    BytesTaken(s8, |r.value|, r.value, s9);
    IntTaken(s9, r.addr, s10);
    IntTaken(s10, r.memOp, s11);
    IntTaken(s11, |r.ioName|, s12);
    BytesTaken(s12, |r.ioName|, r.ioName, rest);
  }

  lemma ParsedIsEncoded(s: Bytes)
    requires Body(s).Some?
    ensures var (r, rest) := Body(s).value; WellFormed(r) && s == BodyEncoded(r, rest)
  {
    hide TakeInt, TakeBytes, PutInt, PutBytes;
    var kind := TakeInt(s).value;
    var semOp := TakeInt(kind.1).value;
    var semLength := TakeInt(semOp.1).value;
    var semValue := TakeInt(semLength.1).value;
    var semName := TakeBytes(semValue.1, semLength.0).value;
    var pid := TakeInt(semName.1).value;
    var status := TakeInt(pid.1).value;
    var size := TakeInt(status.1).value;
    var value := TakeBytes(size.1, size.0).value;
    var addr := TakeInt(value.1).value;
    var memOp := TakeInt(addr.1).value;
    var ioLength := TakeInt(memOp.1).value;
    var ioName := TakeBytes(ioLength.1, ioLength.0).value;
    IntTaken(s, kind.0, kind.1);
    IntTaken(kind.1, semOp.0, semOp.1);
    IntTaken(semOp.1, semLength.0, semLength.1);
    IntTaken(semLength.1, semValue.0, semValue.1);
    BytesTaken(semValue.1, semLength.0, semName.0, semName.1);
    IntTaken(semName.1, pid.0, pid.1);
    IntTaken(pid.1, status.0, status.1);
    IntTaken(status.1, size.0, size.1);
    BytesTaken(size.1, size.0, value.0, value.1);
    IntTaken(value.1, addr.0, addr.1);
    IntTaken(addr.1, memOp.0, memOp.1);
    IntTaken(memOp.1, ioLength.0, ioLength.1);
    BytesTaken(ioLength.1, ioLength.0, ioName.0, ioName.1);
  }

  /**
    The format loses nothing: a string of bytes can be read as a request in at most one way, exactly when
    it starts with the encoding of a well-formed request, and then as that one.
   */
  lemma ParseInvertsEncode(s: Bytes, r: Request, rest: Bytes)
    ensures Parse(s) == Some((r, rest)) <==> WellFormed(r) && s == Encoded(r, rest)
  {
    hide TakeInt, PutInt, PutBytes, Body, WellFormed, BodyEncoded;
    if WellFormed(r) && s == Encoded(r, rest) {
      IntTaken(s, PROCESS, BodyEncoded(r, rest));
      EncodedIsParsed(r, rest);
    }
    if Parse(s) == Some((r, rest)) {
      var code := TakeInt(s).value;
      IntTaken(s, code.0, code.1);
      ParsedIsEncoded(code.1);
    }
  }

  lemma IntThen(n: int, rest: Bytes, more: Bytes)
    ensures PutInt(n, rest) + more == PutInt(n, rest + more) && |PutInt(n, rest)| == 4 + |rest|
  {
    assert (Word(n) + rest) + more == Word(n) + (rest + more);
  }

  lemma BytesThen(b: Bytes, rest: Bytes, more: Bytes)
    ensures PutBytes(b, rest) + more == PutBytes(b, rest + more) && |PutBytes(b, rest)| == |b| + |rest|
  {
    assert (b + rest) + more == b + (rest + more);
  }

  lemma HeadThen(r: Request, rest: Bytes, more: Bytes)
    ensures HeadEncoded(r, rest) + more == HeadEncoded(r, rest + more)
    ensures |HeadEncoded(r, rest)| == 36 + |r.semName| + |r.value| + |rest|
  {
    hide PutInt, PutBytes;
    var s11 := PutInt(r.memOp, rest);
    var s10 := PutInt(r.addr, s11);
    var s9 := PutBytes(r.value, s10);
    var s8 := PutInt(|r.value|, s9);
    var s7 := PutInt(r.status, s8);
    var s6 := PutInt(r.pid, s7);
    var s5 := PutBytes(r.semName, s6);
    var s4 := PutInt(r.semValue, s5);
    var s3 := PutInt(|r.semName|, s4);
    var s2 := PutInt(r.semOp, s3);
    IntThen(r.memOp, rest, more);
    IntThen(r.addr, s11, more);
    BytesThen(r.value, s10, more);
    IntThen(|r.value|, s9, more);
    IntThen(r.status, s8, more);
    IntThen(r.pid, s7, more);
    BytesThen(r.semName, s6, more);
    IntThen(r.semValue, s5, more);
    IntThen(|r.semName|, s4, more);
    IntThen(r.semOp, s3, more);
    IntThen(r.kind, s2, more);
  }

  lemma BodyThen(r: Request, rest: Bytes, more: Bytes)
    ensures BodyEncoded(r, rest) + more == BodyEncoded(r, rest + more)
    ensures |BodyEncoded(r, rest)| == 40 + |r.semName| + |r.value| + |r.ioName| + |rest|
  {
    hide PutInt, PutBytes, HeadEncoded;
    var s1 := PutBytes(r.ioName, rest);
    BytesThen(r.ioName, rest, more);
    IntThen(|r.ioName|, s1, more);
    HeadThen(r, PutInt(|r.ioName|, s1), more);
  }

  /** Eleven integers and three byte strings. */
  lemma EncodedThen(r: Request, rest: Bytes, more: Bytes)
    ensures Encoded(r, rest) + more == Encoded(r, rest + more)
    ensures |Encoded(r, rest)| == 44 + |r.semName| + |r.value| + |r.ioName| + |rest|
  {
    hide PutInt, BodyEncoded;
    BodyThen(r, rest, more);
    IntThen(PROCESS, BodyEncoded(r, rest), more);
  }

  /**
    No encoding is the beginning of another: while a request is incomplete no request can be read, and one
    that is complete is not the beginning of a longer one.
   */
  lemma EncodingsArePrefixFree(r: Request, k: nat, other: Request)
    requires WellFormed(r) && WellFormed(other) && k <= |Encode(r)|
    ensures k < |Encode(r)| ==> Parse(Encode(r)[..k]) == None
    ensures Encode(r)[..k] == Encode(other) <==> k == |Encode(r)| && other == r
  {
    hide Parse, Encoded, WellFormed;
    var whole := Encode(r);
    assert whole == whole[..k] + whole[k..] && whole[..|whole|] == whole;
    ParseInvertsEncode(whole, r, []);
    ParseInvertsEncode(whole[..k], other, []);
    if k < |whole| && Parse(whole[..k]).Some? {
      var (early, rest) := Parse(whole[..k]).value;
      ParseInvertsEncode(whole[..k], early, rest);
      EncodedThen(early, rest, whole[k..]);
      ParseInvertsEncode(whole, early, rest + whole[k..]);
    }
  }

  // ---------------------------------------------------------------- streams of requests

  function EncodeAll(rs: seq<Request>, tail: Bytes): Bytes {
    if |rs| == 0 then tail else Encoded(rs[0], EncodeAll(rs[1..], tail))
  }

  lemma ParseShrinks(s: Bytes)
    ensures Parse(s).Some? ==> |Parse(s).value.1| < |s|
  {
    if Parse(s).Some? {
      var (r, rest) := Parse(s).value;
      ParseInvertsEncode(s, r, rest);
      EncodedThen(r, rest, []);
    }
  }

  /** The requests that a string of bytes starts with, and what is left. */
  function ParseAll(s: Bytes): (seq<Request>, Bytes)
    decreases |s|
  {
    ParseShrinks(s);
    match Parse(s)
    case None => ([], s)
    case Some((r, rest)) =>
      var (rs, tail) := ParseAll(rest);
      ([r] + rs, tail)
  }

  /**
    Streams of any length can be read in one way: `rs` and then `tail` is what is read from a stream exactly
    when the requests are well formed, the stream is their encodings one after another and then `tail`,
    and `tail` does not start with a request.
   */
  lemma {:induction false} StreamsAreParsed(s: Bytes, rs: seq<Request>, tail: Bytes)
    ensures ParseAll(s) == (rs, tail) <==>
            (forall i :: 0 <= i < |rs| ==> WellFormed(rs[i])) && s == EncodeAll(rs, tail) && Parse(tail) == None
    decreases |rs|
  {
    hide Parse, Encoded, WellFormed;
    ParseShrinks(s);
    if |rs| > 0 {
      var rest := EncodeAll(rs[1..], tail);
      ParseInvertsEncode(s, rs[0], rest);
      StreamsAreParsed(rest, rs[1..], tail);
      if Parse(s).Some? {
        var (r, left) := Parse(s).value;
        ParseInvertsEncode(s, r, left);
        var (others, end) := ParseAll(left);
        StreamsAreParsed(left, rs[1..], tail);
        assert ([r] + others)[1..] == others;
        assert rs == [rs[0]] + rs[1..];
      }
    }
  }

  /** What the kernel sends on, request by request, is what it has read, byte for byte. */
  lemma {:induction false} RelayIsIdentical(s: Bytes)
    ensures var (rs, tail) := ParseAll(s); EncodeAll(rs, []) + tail == s
  {
    hide ParseAll, EncodeAll;
    var (rs, tail) := ParseAll(s);
    StreamsAreParsed(s, rs, tail);
    EncodeAllThen(rs, [], tail);
    assert [] + tail == tail;
  }

  lemma {:induction false} EncodeAllThen(rs: seq<Request>, rest: Bytes, more: Bytes)
    ensures EncodeAll(rs, rest) + more == EncodeAll(rs, rest + more)
  {
    hide Encoded;
    if |rs| > 0 {
      EncodeAllThen(rs[1..], rest, more);
      EncodedThen(rs[0], EncodeAll(rs[1..], rest), more);
    }
  }

  // ---------------------------------------------------------------- buffers

  /** `memcpy` at the running offset; `rest` is what is still to come of `whole`. */
  method Copy(buffer: array<Byte>, at: nat, piece: Bytes, ghost whole: Bytes, ghost rest: Bytes) returns (next: nat)
    requires at + |piece| <= buffer.Length && buffer[..at] + (piece + rest) == whole
    modifies buffer
    ensures next == at + |piece| && buffer[..next] + rest == whole
  {
    next := at;
    while next < at + |piece|
      invariant at <= next <= at + |piece|
      invariant buffer[..next] == old(buffer[..at]) + piece[..next - at]
    {
      buffer[next] := piece[next - at];
      next := next + 1;
    }
    assert buffer[..next] == old(buffer[..at]) + piece;
    assert (old(buffer[..at]) + piece) + rest == old(buffer[..at]) + (piece + rest);
  }

  /** The buffer of `serializar_instancia` has room for more than is written: the offset tells how much is sent. */
  method Serialize(r: Request) returns (buffer: array<Byte>, length: nat)
    ensures fresh(buffer) && length <= buffer.Length == 52 + |r.semName| + |r.value| + |r.ioName|
    ensures buffer[..length] == Encode(r) && length == 44 + |r.semName| + |r.value| + |r.ioName|
  {
    buffer := new Byte[|r.ioName| + |r.value| + 52 + |r.semName|];
    ghost var whole := Encode(r);
    EncodedThen(r, [], []);
    ghost var s10 := PutInt(r.addr, PutInt(r.memOp, PutInt(|r.ioName|, PutBytes(r.ioName, []))));
    ghost var s5 := PutInt(r.pid, PutInt(r.status, PutInt(|r.value|, PutBytes(r.value, s10))));
    hide Encoded;
    assert whole == PutInt(PROCESS,
        PutInt(r.kind, PutInt(r.semOp, PutInt(|r.semName|, PutInt(r.semValue, PutBytes(r.semName, s5))))))
      by { EncodedParts(r, s5, s10); }
    assert buffer[..0] + whole == whole;
    length := CopyHead(buffer, r, whole, s5);
    length := CopyMiddle(buffer, length, r, whole, s10);
    length := CopyEnd(buffer, length, r, whole);
    assert buffer[..length] + [] == buffer[..length];
  }

  lemma EncodedParts(r: Request, s5: Bytes, s10: Bytes)
    requires s10 == PutInt(r.addr, PutInt(r.memOp, PutInt(|r.ioName|, PutBytes(r.ioName, []))))
    requires s5 == PutInt(r.pid, PutInt(r.status, PutInt(|r.value|, PutBytes(r.value, s10))))
    ensures Encode(r) ==
            PutInt(PROCESS,
                PutInt(r.kind, PutInt(r.semOp, PutInt(|r.semName|, PutInt(r.semValue, PutBytes(r.semName, s5))))))
  {
    hide PutInt, PutBytes;
  }

  method CopyHead(buffer: array<Byte>, r: Request, ghost whole: Bytes, ghost rest: Bytes) returns (at: nat)
    requires buffer.Length >= 20 + |r.semName|
    requires whole == PutInt(PROCESS,
        PutInt(r.kind, PutInt(r.semOp, PutInt(|r.semName|, PutInt(r.semValue, PutBytes(r.semName, rest))))))
    modifies buffer
    ensures at == 20 + |r.semName| && buffer[..at] + rest == whole
  {
    hide Word;
    assert buffer[..0] + whole == whole;
    at := Copy(buffer, 0, Word(PROCESS), whole,
        PutInt(r.kind, PutInt(r.semOp, PutInt(|r.semName|, PutInt(r.semValue, PutBytes(r.semName, rest))))));
    at := Copy(buffer, at, Word(r.kind), whole,
        PutInt(r.semOp, PutInt(|r.semName|, PutInt(r.semValue, PutBytes(r.semName, rest)))));
    at := Copy(buffer, at, Word(r.semOp), whole, PutInt(|r.semName|, PutInt(r.semValue, PutBytes(r.semName, rest))));
    at := Copy(buffer, at, Word(|r.semName|), whole, PutInt(r.semValue, PutBytes(r.semName, rest)));
    at := Copy(buffer, at, Word(r.semValue), whole, PutBytes(r.semName, rest));
    at := Copy(buffer, at, r.semName, whole, rest);
  }

  method CopyMiddle(buffer: array<Byte>, from: nat, r: Request, ghost whole: Bytes, ghost rest: Bytes) returns (at: nat)
    requires buffer.Length >= from + 12 + |r.value|
    requires whole == buffer[..from] + PutInt(r.pid, PutInt(r.status, PutInt(|r.value|, PutBytes(r.value, rest))))
    modifies buffer
    ensures at == from + 12 + |r.value| && buffer[..at] + rest == whole
  {
    hide Word;
    at := Copy(buffer, from, Word(r.pid), whole, PutInt(r.status, PutInt(|r.value|, PutBytes(r.value, rest))));
    at := Copy(buffer, at, Word(r.status), whole, PutInt(|r.value|, PutBytes(r.value, rest)));
    at := Copy(buffer, at, Word(|r.value|), whole, PutBytes(r.value, rest));
    at := Copy(buffer, at, r.value, whole, rest);
  }

  method CopyEnd(buffer: array<Byte>, from: nat, r: Request, ghost whole: Bytes) returns (at: nat)
    requires buffer.Length >= from + 12 + |r.ioName|
    requires whole == buffer[..from] + PutInt(r.addr, PutInt(r.memOp, PutInt(|r.ioName|, PutBytes(r.ioName, []))))
    modifies buffer
    ensures at == from + 12 + |r.ioName| && buffer[..at] + [] == whole
  {
    hide Word;
    at := Copy(buffer, from, Word(r.addr), whole, PutInt(r.memOp, PutInt(|r.ioName|, PutBytes(r.ioName, []))));
    at := Copy(buffer, at, Word(r.memOp), whole, PutInt(|r.ioName|, PutBytes(r.ioName, [])));
    at := Copy(buffer, at, Word(|r.ioName|), whole, PutBytes(r.ioName, []));
    at := Copy(buffer, at, r.ioName, whole, []);
  }

  // ---------------------------------------------------------------- packets

  /** The stream of a packet: every value after its length, in the order in which they were added */
  function Packed(values: seq<Bytes>): Bytes {
    if |values| == 0 then []
    else
      var n := |values| - 1;
      Packed(values[..n]) + (Word(|values[n]|) + values[n])
  }

  /** The loop of `recibir_paquete`; nothing when a length points outside the buffer. */
  function Values(buffer: Bytes): Option<seq<Bytes>>
    decreases |buffer|
  {
    if |buffer| == 0 then Some([])
    else
      var length :- TakeInt(buffer);
      var value :- TakeBytes(length.1, length.0);
      var rest :- Values(value.1);
      Some([value.0] + rest)
  }

  function After(values: seq<Bytes>, rest: Option<seq<Bytes>>): Option<seq<Bytes>> {
    if rest.None? then None else Some(values + rest.value)
  }

  lemma AfterNothing(rest: Option<seq<Bytes>>)
    ensures After([], rest) == rest
  {
    if rest.Some? {
      assert [] + rest.value == rest.value;
    }
  }

  lemma AfterOneMore(values: seq<Bytes>, value: Bytes, rest: Option<seq<Bytes>>)
    ensures After(values, After([value], rest)) == After(values + [value], rest)
  {
    if rest.Some? {
      assert values + ([value] + rest.value) == (values + [value]) + rest.value;
    }
  }

  /** One round of the loop */
  lemma ValuesStep(buffer: Bytes, at: nat)
    requires at < |buffer|
    ensures var left := Values(buffer[at..]);
            if at + 4 > |buffer| then left == None
            else
              var length := Number(buffer[at..at + 4]);
              if length < 0 || at + 4 + length > |buffer| then left == None
              else left == After([buffer[at + 4..at + 4 + length]], Values(buffer[at + 4 + length..]))
  {
    hide Number;
    var left := buffer[at..];
    if at + 4 <= |buffer| {
      assert left[..4] == buffer[at..at + 4] && left[4..] == buffer[at + 4..];
      var length := Number(buffer[at..at + 4]);
      if 0 <= length && at + 4 + length <= |buffer| {
        assert left[4..][..length] == buffer[at + 4..at + 4 + length];
        assert left[4..][length..] == buffer[at + 4 + length..];
      }
    }
  }

  /** The loop of `recibir_paquete`, with its running offset */
  method Unpack(buffer: Bytes) returns (r: Option<seq<Bytes>>)
    ensures r == Values(buffer)
  {
    hide Values, Number;
    var values, at := [], 0;
    assert buffer[0..] == buffer;
    AfterNothing(Values(buffer));
    while at < |buffer|
      invariant 0 <= at <= |buffer|
      invariant Values(buffer) == After(values, Values(buffer[at..]))
    {
      ValuesStep(buffer, at);
      if at + 4 > |buffer| {
        return None;
      }
      var length := Number(buffer[at..at + 4]);
      if length < 0 || at + 4 + length > |buffer| {
        return None;
      }
      AfterOneMore(values, buffer[at + 4..at + 4 + length], Values(buffer[at + 4 + length..]));
      values := values + [buffer[at + 4..at + 4 + length]];
      at := at + 4 + length;
    }
    NothingPacked(buffer[at..]);
    assert values + [] == values;
    r := Some(values);
  }

  function Unpacked(s: Bytes): Option<(seq<Bytes>, Bytes)> {
    var size :- TakeInt(s);
    var buffer :- TakeBytes(size.1, size.0);
    var values :- Values(buffer.0);
    Some((values, buffer.1))
  }

  predicate AllFit(values: seq<Bytes>) {
    forall i :: 0 <= i < |values| ==> |values[i]| < LIMIT
  }

  lemma {:induction false} PackedFirst(v: Bytes, values: seq<Bytes>)
    ensures Packed([v] + values) == PutInt(|v|, PutBytes(v, Packed(values)))
    decreases |values|
  {
    hide Word;
    var n := |values|;
    if n == 0 {
      assert ([v] + values)[..0] == [];
    } else {
      assert ([v] + values)[..n] == [v] + values[..n - 1];
      PackedFirst(v, values[..n - 1]);
    }
  }

  /** A buffer holds exactly the values it was packed from, and every buffer that can be read is a packing. */
  lemma {:induction false} ValuesOfPacked(buffer: Bytes, values: seq<Bytes>)
    ensures Values(buffer) == Some(values) <==> AllFit(values) && buffer == Packed(values)
    decreases |values|
  {
    hide TakeInt, TakeBytes, PutInt, PutBytes;
    if |values| == 0 {
      NothingPacked(buffer);
    } else {
      var v, vs := values[0], values[1..];
      PackedFirst(v, vs);
      assert [v] + vs == values;
      var tail := PutBytes(v, Packed(vs));
      IntTaken(buffer, |v|, tail);
      BytesTaken(tail, |v|, v, Packed(vs));
      ValuesOfPacked(Packed(vs), vs);
      IntThen(|v|, tail, []);
      if Values(buffer).Some? && |buffer| > 0 {
        var length := TakeInt(buffer).value;
        var value := TakeBytes(length.1, length.0).value;
        IntTaken(buffer, length.0, length.1);
        BytesTaken(length.1, length.0, value.0, value.1);
        ValuesOfPacked(value.1, vs);
        assert ([value.0] + Values(value.1).value)[1..] == Values(value.1).value;
      }
    }
  }

  lemma {:induction false} NothingPacked(buffer: Bytes)
    ensures Values(buffer) == Some([]) <==> buffer == []
  {
  }

  /** `serializar_paquete`: the code, the size, the stream */
  function Packet(code: int, values: seq<Bytes>, rest: Bytes): Bytes {
    PutInt(code, PutInt(|Packed(values)|, PutBytes(Packed(values), rest)))
  }

  /** After the code, a stream is read as a packet exactly when it is the packet of those values. */
  lemma {:induction false} PacketsRoundTrip(s: Bytes, values: seq<Bytes>, rest: Bytes)
    ensures Unpacked(s) == Some((values, rest)) <==>
            AllFit(values) && |Packed(values)| < LIMIT && s == PutInt(|Packed(values)|, PutBytes(Packed(values), rest))
  {
    hide TakeInt, TakeBytes, PutInt, PutBytes, Packed, Values, AllFit;
    var packed := Packed(values);
    IntTaken(s, |packed|, PutBytes(packed, rest));
    BytesTaken(PutBytes(packed, rest), |packed|, packed, rest);
    ValuesOfPacked(packed, values);
    if Unpacked(s).Some? {
      var size := TakeInt(s).value;
      var buffer := TakeBytes(size.1, size.0).value;
      IntTaken(s, size.0, size.1);
      BytesTaken(size.1, size.0, buffer.0, buffer.1);
      ValuesOfPacked(buffer.0, values);
    }
  }

  class Package {
    var stream: array<Byte>
    var size: nat

    ghost predicate Holds(values: seq<Bytes>)
      reads this, stream
    {
      size <= stream.Length && stream[..size] == Packed(values)
    }

    /** `crear_paquete` */
    constructor ()
      ensures Holds([]) && fresh(stream)
    {
      stream, size := new Byte[0], 0;
    }

    /** `agregar_a_paquete`: the stream grows, and keeps what it held. */
    method Add(value: Bytes, ghost values: seq<Bytes>)
      requires Holds(values)
      modifies this
      ensures Holds(values + [value]) && fresh(stream)
    {
      hide Word;
      ghost var whole := Packed(values) + (Word(|value|) + value);
      assert (values + [value])[..|values|] == values;
      assert Packed(values + [value]) == whole;
      var grown := new Byte[size + |value| + 4];
      var i := 0;
      while i < size
        invariant i <= size && size + |value| + 4 == grown.Length && unchanged(this) && unchanged(stream)
        invariant grown[..i] == stream[..i]
      {
        grown[i] := stream[i];
        i := i + 1;
      }
      assert grown[..size] == stream[..size];
      stream := grown;
      var next := Copy(stream, size, Word(|value|), whole, value);
      assert value + [] == value;
      next := Copy(stream, next, value, whole, []);
      size := size + |value| + 4;
      assert stream[..size] + [] == stream[..size];
    }

    /** `serializar_paquete` */
    method Serialize(code: int, ghost values: seq<Bytes>) returns (bytes: array<Byte>)
      requires Holds(values)
      ensures fresh(bytes) && bytes[..] == Packet(code, values, [])
    {
      hide Word;
      ghost var whole, packed := Packet(code, values, []), Packed(values);
      bytes := new Byte[size + 8];
      assert bytes[..0] + whole == whole;
      var at := Copy(bytes, 0, Word(code), whole, PutInt(|packed|, PutBytes(packed, [])));
      at := Copy(bytes, at, Word(size), whole, PutBytes(packed, []));
      at := Copy(bytes, at, stream[..size], whole, []);
      assert bytes[..at] + [] == bytes[..];
    }
  }
}
