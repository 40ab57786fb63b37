/**
  The receiving end of a connection.  The servers never look at the result of `recv`: when the peer closes
  the connection in the middle of a request they go on with whatever lies in the memory they allocated.
 */
module Connection {
  import opened Base
  import opened Wire

  /** All that arrives before the connection is closed, and what lies in memory where nothing has arrived. */
  datatype Line = Line(sent: Bytes, junk: nat -> Byte) {
    function At(i: nat): Byte {
      if i < |sent| then sent[i] else junk(i)
    }
  }

  /** `recv` of an `int` */
  function IntAt(line: Line, at: nat): int {
    Number([line.At(at), line.At(at + 1), line.At(at + 2), line.At(at + 3)])
  }

  /** A negative length receives nothing. */
  function Length(n: int): nat {
    if n < 0 then 0 else n
  }

  /** `recv` of as many bytes as the length says */
  function TextAt(line: Line, at: nat, n: int): (text: Bytes)
    ensures |text| == Length(n)
  {
    seq(Length(n), i requires 0 <= i => line.At(at + i))
  }

  /** `deserializar_instancia`, the same in the kernel and in the memory server, and where it stops */
  function RequestAt(line: Line, at: nat): (Request, nat) {
    var kind, semOp, semLength, semValue := IntAt(line, at), IntAt(line, at + 4), IntAt(line, at + 8),
        IntAt(line, at + 12);
    var semName, next := TextAt(line, at + 16, semLength), at + 16 + Length(semLength);
    var pid, status, size := IntAt(line, next), IntAt(line, next + 4), IntAt(line, next + 8);
    var value, last := TextAt(line, next + 12, size), next + 12 + Length(size);
    var addr, memOp, ioLength := IntAt(line, last), IntAt(line, last + 4), IntAt(line, last + 8);
    var ioName, end := TextAt(line, last + 12, ioLength), last + 12 + Length(ioLength);
    (Request(kind, semOp, semValue, semName, pid, status, value, addr, memOp, ioName), end)
  }

  /** The main thread of the kernel and the memory server: the body is read after the one code they accept. */
  function Guarded(line: Line, at: nat): (Option<Request>, nat) {
    if IntAt(line, at) != PROCESS then (None, at + 4)
    else
      var (r, end) := RequestAt(line, at + 4);
      (Some(r), end)
  }

  /** The loop of a CPU: the body is read whatever the code, from a closed connection when it is another. */
  function ByCpu(line: Line, at: nat): (Request, nat) {
    if IntAt(line, at) != PROCESS then RequestAt(Line([], line.junk), at + 4) else RequestAt(line, at + 4)
  }

  // ---------------------------------------------------------------- what lies on the line

  ghost predicate Shows(line: Line, at: nat, b: Bytes) {
    forall i :: 0 <= i < |b| ==> line.At(at + i) == b[i]
  }

  lemma ShowsBoth(line: Line, at: nat, a: Bytes, b: Bytes)
    requires Shows(line, at, a + b)
    ensures Shows(line, at, a) && Shows(line, at + |a|, b)
  {
    forall i | 0 <= i < |a|
      ensures line.At(at + i) == a[i]
    {
      assert (a + b)[i] == a[i];
    }
    forall i | 0 <= i < |b|
      ensures line.At(at + |a| + i) == b[i]
    {
      assert (a + b)[|a| + i] == b[i];
    }
  }

  lemma IntShown(line: Line, at: nat, n: int, rest: Bytes)
    requires Fits(n) && Shows(line, at, PutInt(n, rest))
    ensures IntAt(line, at) == n && Shows(line, at + 4, rest)
  {
    hide Word, Number;
    ShowsBoth(line, at, Word(n), rest);
    var w := [line.At(at), line.At(at + 1), line.At(at + 2), line.At(at + 3)];
    assert w == Word(n);
    WordIsNumber(n, w);
  }

  lemma TextShown(line: Line, at: nat, b: Bytes, rest: Bytes)
    requires Shows(line, at, PutBytes(b, rest))
    ensures TextAt(line, at, |b|) == b && Shows(line, at + |b|, rest)
  {
    ShowsBoth(line, at, b, rest);
  }

  /** Where the bytes of a request lie on the line, that request is read, whatever lies after them. */
  lemma RequestShown(line: Line, at: nat, r: Request, rest: Bytes)
    requires WellFormed(r) && Shows(line, at, BodyEncoded(r, rest))
    ensures RequestAt(line, at) == (r, at + 40 + |r.semName| + |r.value| + |r.ioName|)
  {
    hide IntAt, TextAt, PutInt, PutBytes, Shows;
    var s12 := PutBytes(r.ioName, rest);
    var s11 := PutInt(|r.ioName|, s12);
    var s10 := PutInt(r.memOp, s11);
    var s9 := PutInt(r.addr, s10);
    var s8 := PutBytes(r.value, s9);
    var s7 := PutInt(|r.value|, s8);
    var s6 := PutInt(r.status, s7);
    var s5 := PutInt(r.pid, s6);
    var s4 := PutBytes(r.semName, s5);
    var s3 := PutInt(r.semValue, s4);
    var s2 := PutInt(|r.semName|, s3);
    var s1 := PutInt(r.semOp, s2);
    var next := at + 16 + |r.semName|;
    var last := next + 12 + |r.value|;
    IntShown(line, at, r.kind, s1);
    IntShown(line, at + 4, r.semOp, s2);
    IntShown(line, at + 8, |r.semName|, s3);
    IntShown(line, at + 12, r.semValue, s4);
    TextShown(line, at + 16, r.semName, s5);
    IntShown(line, next, r.pid, s6);
    IntShown(line, next + 4, r.status, s7);
    IntShown(line, next + 8, |r.value|, s8);
    TextShown(line, next + 12, r.value, s9);
    IntShown(line, last, r.addr, s10);
    IntShown(line, last + 4, r.memOp, s11);
    IntShown(line, last + 8, |r.ioName|, s12);
    TextShown(line, last + 12, r.ioName, rest);
  }

  /** A body after some code */
  function Sent(code: int, r: Request): Bytes {
    PutInt(code, BodyEncoded(r, []))
  }

  /** The memory holds what has not arrived of `whole`. */
  function Filling(whole: Bytes): nat -> Byte {
    (i: nat) => if i < |whole| then whole[i] else 0
  }

  lemma Filled(whole: Bytes, other: Bytes, k: nat)
    requires k <= |whole| && k <= |other| && whole[..k] == other[..k]
    ensures Shows(Line(whole[..k], Filling(other)), 0, other)
  {
    forall i | 0 <= i < |other|
      ensures Line(whole[..k], Filling(other)).At(i) == other[i]
    {
      if i < k {
        assert whole[..k][i] == other[..k][i];
      }
    }
  }

  // ---------------------------------------------------------------- a connection that is closed

  /**
    A failing input: when the connection is closed after any part of a request, every other request that
    starts with the bytes that did arrive can be the one that is processed; it only has to lie in memory.
   */
  lemma CutRequestIsTaken(r: Request, k: nat, other: Request) returns (junk: nat -> Byte)
    requires WellFormed(other) && k <= |Encode(r)| && k <= |Encode(other)| && Encode(r)[..k] == Encode(other)[..k]
    ensures Guarded(Line(Encode(r)[..k], junk), 0).0 == Some(other)
    ensures ByCpu(Line(Encode(r)[..k], junk), 0).0 == other
  {
    hide PutInt, BodyEncoded, Shows, RequestAt, IntAt;
    junk := Filling(Encode(other));
    Filled(Encode(r), Encode(other), k);
    var line := Line(Encode(r)[..k], junk);
    IntShown(line, 0, PROCESS, BodyEncoded(other, []));
    RequestShown(line, 4, other, []);
  }

  /** Another request, whose encoding starts with all but the last byte of the encoding of `r` */
  function Sibling(r: Request): Request {
    var n := |r.ioName|;
    if n == 0 then r.(ioName := seq(0x100_0000, _ => 0))
    else r.(ioName := r.ioName[..n - 1] + [if r.ioName[n - 1] == 0 then 1 else 0])
  }

  function Tail(r: Request): Bytes {
    PutInt(|r.ioName|, PutBytes(r.ioName, []))
  }

  lemma SiblingTail(r: Request)
    ensures |Tail(r)| > 0 && |Tail(Sibling(r))| >= |Tail(r)|
    ensures Tail(r)[..|Tail(r)| - 1] == Tail(Sibling(r))[..|Tail(r)| - 1]
  {
    var n := |r.ioName|;
    if n == 0 {
      assert Word(0) == [0, 0, 0, 0] && Word(0x100_0000) == [0, 0, 0, 1];
    } else {
      hide Word;
      assert |Sibling(r).ioName| == n;
    }
  }

  lemma EncodeParts(r: Request, q: Request, at: nat)
    requires q == r || q == Sibling(r)
    requires at <= |Tail(q)|
    ensures Encode(q) == PutInt(PROCESS, HeadEncoded(r, Tail(q)[..at])) + Tail(q)[at..]
  {
    hide PutInt, PutBytes;
    assert Tail(q) == Tail(q)[..at] + Tail(q)[at..];
    HeadThen(r, Tail(q)[..at], Tail(q)[at..]);
    IntThen(PROCESS, HeadEncoded(r, Tail(q)[..at]), Tail(q)[at..]);
  }

  lemma SiblingIsClose(r: Request)
    requires WellFormed(r)
    ensures WellFormed(Sibling(r)) && Sibling(r) != r
    ensures var n := |Encode(r)|;
            0 < n <= |Encode(Sibling(r))| && Encode(r)[..n - 1] == Encode(Sibling(r))[..n - 1]
  {
    hide PutInt, PutBytes, HeadEncoded, Encode, Tail;
    SiblingTail(r);
    var at := |Tail(r)| - 1;
    EncodeParts(r, r, at);
    EncodeParts(r, Sibling(r), at);
    var front := PutInt(PROCESS, HeadEncoded(r, Tail(r)[..at]));
    assert Encode(r)[..|front|] == front && Encode(Sibling(r))[..|front|] == front;
    assert |Encode(r)| == |front| + 1;
    assert Sibling(r).ioName != r.ioName;
  }

  lemma Shorter(a: Bytes, b: Bytes, n: nat, k: nat)
    requires k <= n <= |a| && n <= |b| && a[..n] == b[..n]
    ensures a[..k] == b[..k]
  {
    assert a[..k] == a[..n][..k] && b[..k] == b[..n][..k];
  }

  /**
    The kernel, where a process comes in, and the memory server process the request that was sent, whatever
    lies in memory, exactly when all its bytes arrive before the connection is closed and the code is 1.
   */
  lemma ServerGetsTheRequest(code: int, r: Request, k: nat)
    requires Fits(code) && WellFormed(r) && k <= |Sent(code, r)|
    ensures (forall junk: nat -> Byte :: Guarded(Line(Sent(code, r)[..k], junk), 0).0 == Some(r))
            <==> code == PROCESS && k == |Sent(code, r)|
  {
    hide PutInt, BodyEncoded, Shows, RequestAt, IntAt, WellFormed, Sibling;
    var whole := Sent(code, r);
    if code != PROCESS {
      Filled(whole, whole, k);
      IntShown(Line(whole[..k], Filling(whole)), 0, code, BodyEncoded(r, []));
    } else if k < |whole| {
      SiblingIsClose(r);
      Shorter(whole, Encode(Sibling(r)), |whole| - 1, k);
      var junk := CutRequestIsTaken(r, k, Sibling(r));
    } else {
      assert whole[..k] == whole;
      forall junk: nat -> Byte
        ensures Guarded(Line(whole[..k], junk), 0).0 == Some(r)
      {
        AllSent(whole, junk);
        AllArrived(Line(whole, junk), 0, r, []);
      }
    }
  }

  /** What has arrived is processed as it was sent, whatever follows. */
  lemma AllArrived(line: Line, at: nat, r: Request, rest: Bytes)
    requires WellFormed(r) && Shows(line, at, Encoded(r, rest))
    ensures Guarded(line, at) == (Some(r), at + |Encode(r)|) && ByCpu(line, at) == (r, at + |Encode(r)|)
    ensures Shows(line, at + |Encode(r)|, rest)
  {
    hide PutInt, BodyEncoded, Shows, RequestAt, IntAt, WellFormed;
    IntShown(line, at, PROCESS, BodyEncoded(r, rest));
    RequestShown(line, at + 4, r, rest);
    EncodedThen(r, [], rest);
    assert [] + rest == rest;
    ShowsBoth(line, at, Encode(r), rest);
  }

  /** All of it has been sent. */
  lemma AllSent(s: Bytes, junk: nat -> Byte)
    ensures Shows(Line(s, junk), 0, s)
  {
  }

  /** The same for a CPU of the kernel, although it reads the body whatever the code. */
  lemma CpuGetsTheRequest(code: int, r: Request, k: nat)
    requires Fits(code) && WellFormed(r) && k <= |Sent(code, r)|
    ensures (forall junk: nat -> Byte :: ByCpu(Line(Sent(code, r)[..k], junk), 0).0 == r)
            <==> code == PROCESS && k == |Sent(code, r)|
  {
    hide PutInt, BodyEncoded, Shows, RequestAt, IntAt, Sibling;
    var whole := Sent(code, r);
    if code != PROCESS {
      var junk := OtherCodeIsTaken(code, r, k, r.(kind := if r.kind == 0 then 1 else 0));
    } else if k < |whole| {
      SiblingIsClose(r);
      Shorter(whole, Encode(Sibling(r)), |whole| - 1, k);
      var junk := CutRequestIsTaken(r, k, Sibling(r));
    } else {
      assert whole[..k] == whole;
      forall junk: nat -> Byte
        ensures ByCpu(Line(whole[..k], junk), 0).0 == r
      {
        AllSent(whole, junk);
        AllArrived(Line(whole, junk), 0, r, []);
      }
    }
  }

  /** After any other code a CPU takes any request at all: it only has to lie in memory. */
  lemma OtherCodeIsTaken(code: int, r: Request, k: nat, other: Request) returns (junk: nat -> Byte)
    requires Fits(code) && code != PROCESS && WellFormed(other) && k <= |Sent(code, r)|
    ensures ByCpu(Line(Sent(code, r)[..k], junk), 0).0 == other
  {
    hide BodyEncoded, RequestAt, IntAt, WellFormed, Word, Number;
    var whole, filling := Sent(code, r), Sent(code, other);
    junk := Filling(filling);
    var line, closed := Line(whole[..k], junk), Line([], junk);
    assert Shows(line, 0, Word(code) + []);
    IntShown(line, 0, code, []);
    var none: Bytes := [];
    assert none[..0] == filling[..0] == none;
    Filled(none, filling, 0);
    IntShown(closed, 0, code, BodyEncoded(other, []));
    RequestShown(closed, 4, other, []);
  }

  // ---------------------------------------------------------------- streams of requests

  /** The first `n` requests that a server processes, as long as the code is 1 */
  function Served(line: Line, at: nat, n: nat): (seq<Request>, nat)
    decreases n
  {
    if n == 0 then ([], at)
    else
      match Guarded(line, at)
      case (None, next) => ([], next)
      case (Some(r), next) =>
        var (rs, end) := Served(line, next, n - 1);
        ([r] + rs, end)
  }

  lemma {:induction false} ServedFrom(line: Line, at: nat, rs: seq<Request>, tail: Bytes)
    requires (forall i :: 0 <= i < |rs| ==> WellFormed(rs[i])) && Shows(line, at, EncodeAll(rs, tail))
    ensures Served(line, at, |rs|) == (rs, at + |EncodeAll(rs, [])|)
    decreases |rs|
  {
    hide Encoded, WellFormed, Guarded, ByCpu, Shows;
    if |rs| == 0 {
      assert rs == [];
    } else {
      assert rs == [rs[0]] + rs[1..];
      AllArrived(line, at, rs[0], EncodeAll(rs[1..], tail));
      ServedFrom(line, at + |Encode(rs[0])|, rs[1..], tail);
      EncodedThen(rs[0], [], EncodeAll(rs[1..], []));
      EncodedThen(rs[0], EncodeAll(rs[1..], []), []);
    }
  }

  /**
    The complete requests at the start of a stream are processed in order and as they were sent, whatever
    comes after them and wherever the connection is closed after them.
   */
  lemma {:induction false} CompleteRequestsAreServed(rs: seq<Request>, tail: Bytes, junk: nat -> Byte)
    requires forall i :: 0 <= i < |rs| ==> WellFormed(rs[i])
    ensures Served(Line(EncodeAll(rs, tail), junk), 0, |rs|) == (rs, |EncodeAll(rs, [])|)
  {
    hide WellFormed, EncodeAll, Served;
    AllSent(EncodeAll(rs, tail), junk);
    ServedFrom(Line(EncodeAll(rs, tail), junk), 0, rs, tail);
  }

  // ---------------------------------------------------------------- the socket

  class Socket {
    const sent: Bytes
    const junk: nat -> Byte
    var at: nat
    var closed: bool

    constructor (sent: Bytes, junk: nat -> Byte)
      ensures this.sent == sent && this.junk == junk && at == 0 && !closed
    {
      this.sent, this.junk, at, closed := sent, junk, 0, false;
    }

    /** What there is to receive: nothing once this end has closed the connection. */
    function Open(): Line
      reads `closed
    {
      Line(if closed then [] else sent, junk)
    }

    /** `recv` into `n` bytes of new memory: it overwrites as many as have arrived. */
    method Receive(n: nat) returns (buffer: Bytes)
      modifies this`at
      ensures buffer == TextAt(Open(), old(at), n) && at == old(at) + n
    {
      buffer := TextAt(Line([], junk), at, n);
      var i := 0;
      while i < n && !closed && at + i < |sent|
        invariant i <= n == |buffer| && at == old(at)
        invariant closed || at + i <= |sent| || i == 0
        invariant forall k :: 0 <= k < i ==> buffer[k] == Open().At(at + k)
        invariant forall k :: i <= k < n ==> buffer[k] == Line([], junk).At(at + k)
      {
        buffer := buffer[i := sent[at + i]];
        i := i + 1;
      }
      assert forall k :: 0 <= k < n ==> buffer[k] == Open().At(at + k);
      assert buffer == TextAt(Open(), at, n);
      at := at + n;
    }

    method ReceiveInt() returns (n: int)
      modifies this`at
      ensures n == IntAt(Open(), old(at)) && at == old(at) + 4
    {
      var w := Receive(4);
      assert w == [w[0], w[1], w[2], w[3]];
      n := Number(w);
    }

    method ReceiveBytes(n: int) returns (b: Bytes)
      modifies this`at
      ensures b == TextAt(Open(), old(at), n) && at == old(at) + Length(n)
    {
      b := Receive(Length(n));
    }

    /** `deserializar_instancia` */
    method ReceiveBody() returns (r: Request)
      modifies this`at
      ensures (r, at) == RequestAt(Open(), old(at))
    {
      hide IntAt, TextAt, Length, Open;
      var kind := ReceiveInt();
      var semOp := ReceiveInt();
      var semLength := ReceiveInt();
      var semValue := ReceiveInt();
      var semName := ReceiveBytes(semLength);
      var pid := ReceiveInt();
      var status := ReceiveInt();
      var size := ReceiveInt();
      var value := ReceiveBytes(size);
      var addr := ReceiveInt();
      var memOp := ReceiveInt();
      var ioLength := ReceiveInt();
      var ioName := ReceiveBytes(ioLength);
      r := Request(kind, semOp, semValue, semName, pid, status, value, addr, memOp, ioName);
    }

    /** `recibir_operacion` */
    method ReceiveCode() returns (code: int)
      modifies this
      ensures code == IntAt(old(Open()), old(at)) && at == old(at) + 4
      ensures closed == (old(closed) || code != PROCESS)
    {
      code := ReceiveInt();
      if code != PROCESS {
        closed := true;
      }
    }

    /** The loops of the main thread of the kernel and of the memory server */
    method ReceiveGuarded() returns (r: Option<Request>)
      modifies this
      ensures (r, at) == Guarded(old(Open()), old(at)) && closed == (old(closed) || r.None?)
    {
      hide IntAt, RequestAt;
      var code := ReceiveCode();
      if code != PROCESS {
        return None;
      }
      var request := ReceiveBody();
      r := Some(request);
    }

    /** The loop of a CPU */
    method ReceiveByCpu() returns (r: Request)
      modifies this
      ensures (r, at) == ByCpu(old(Open()), old(at))
    {
      hide IntAt, RequestAt;
      var code := ReceiveCode();
      r := ReceiveBody();
    }

    /** `recibir_buffer` and `recibir_paquete`, after the code has been read */
    method ReceivePacket() returns (r: Option<seq<Bytes>>)
      modifies this`at
      ensures var size := IntAt(Open(), old(at));
              r == Values(TextAt(Open(), old(at) + 4, size)) && at == old(at) + 4 + Length(size)
    {
      hide IntAt, TextAt, Values;
      var size := ReceiveInt();
      var buffer := ReceiveBytes(size);
      r := Unpack(buffer);
    }
  }
}
