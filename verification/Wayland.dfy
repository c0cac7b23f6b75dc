/**
  Wayland message framing in a 1024-byte receive buffer.  A message is an object
  id, a word holding its size and opcode, and a body ("Wire Format" in the Wayland
  protocol document).
 */
module Wayland {
  import opened Bits

  datatype Msg = Msg(obj: nat, op: nat, body: seq<byte>)

  // ---- messages on the wire ----------------------------------------------------------

  predicate Sendable(m: Msg)
  {
    m.obj < 0x1_0000_0000 && m.op < 65536 && |m.body| <= 1016
  }

  function Encode(m: Msg): (r: seq<byte>)
    requires Sendable(m)
    ensures |r| == 8 + |m.body|
  {
    Put32(m.obj) + Put32((8 + |m.body|) * 65536 + m.op) + m.body
  }

  /** The size field of the message that begins `s`. */
  function SizeAt(s: seq<byte>): (r: nat)
    requires |s| >= 8
    ensures r < 65536
  {
    Get32(s, 4) / 65536
  }

  /** `s` begins with a whole message that fits the buffer. */
  predicate Complete(s: seq<byte>)
  {
    |s| >= 8 && 8 <= SizeAt(s) <= 1024 && SizeAt(s) <= |s|
  }

  function Head(s: seq<byte>): (m: Msg)
    requires Complete(s)
    ensures |m.body| == SizeAt(s) - 8
  {
    Msg(Get32(s, 0), Get32(s, 4) % 65536, s[8..SizeAt(s)])
  }

  /** The size, low byte first, in bytes 6 and 7; a message is whole when it is 8 to 1024 and that much is there. */
  lemma SizeBytes(s: seq<byte>)
    requires |s| >= 8
    ensures SizeAt(s) == s[6] as int + 256 * s[7] as int
    ensures Complete(s) <==> 8 <= SizeAt(s) <= 1024 && SizeAt(s) <= |s|
  {
    Halves(s, 4);
    hide Get32;
  }

  /** The object in bytes 0 to 3, the opcode in 4 and 5, low bytes first, and the body from 8 on. */
  lemma WireBytes(s: seq<byte>)
    requires Complete(s)
    ensures Head(s).obj == s[0] as int + 256 * s[1] as int + 0x1_0000 * s[2] as int + 0x100_0000 * s[3] as int
    ensures Head(s).op == s[4] as int + 256 * s[5] as int
    ensures Head(s).body == s[8..SizeAt(s)]
  {
    Halves(s, 0);
    Halves(s, 4);
    hide Get32;
  }

  lemma Halves(s: seq<byte>, k: nat)
    requires k + 4 <= |s|
    ensures Get32(s, k) % 65536 == s[k] as int + 256 * s[k + 1] as int
    ensures Get32(s, k) / 65536 == s[k + 2] as int + 256 * s[k + 3] as int
  {
    var lo, hi := Le16(s[k], s[k + 1]), Le16(s[k + 2], s[k + 3]);
    assert Get32(s, k) == lo + 65536 * hi;
    hide Get32;
    HalvesOf(lo, hi);
  }

  lemma HalvesOf(lo: nat, hi: nat)
    requires lo < 65536
    ensures (lo + 65536 * hi) % 65536 == lo && (lo + 65536 * hi) / 65536 == hi
  {
  }

  /** All the messages at the front of a byte stream, up to the first that is not whole. */
  function Parse(s: seq<byte>): (r: seq<Msg>)
  {
    if Complete(s) then [Head(s)] + Parse(s[SizeAt(s)..]) else []
  }

  function EncodeAll(ms: seq<Msg>): (r: seq<byte>)
    requires forall i :: 0 <= i < |ms| ==> Sendable(ms[i])
  {
    if ms == [] then [] else Encode(ms[0]) + EncodeAll(ms[1..])
  }

  lemma HeadOfEncoded(m: Msg, rest: seq<byte>)
    requires Sendable(m)
    ensures Complete(Encode(m) + rest) && Head(Encode(m) + rest) == m && SizeAt(Encode(m) + rest) == 8 + |m.body|
  {
    hide Put32, Get32;
    var size := 8 + |m.body|;
    var s, word := Encode(m) + rest, size * 65536 + m.op;
    assert At(s, 0, Put32(m.obj));
    Get32OfPut32(m.obj, s, 0);
    assert At(s, 4, Put32(word));
    Get32OfPut32(word, s, 4);
    assert s[8..size] == m.body;
  }

  /** Messages written one after the other are parsed back as they were. */
  lemma {:induction false} ParseOfEncoded(ms: seq<Msg>, rest: seq<byte>)
    requires forall i :: 0 <= i < |ms| ==> Sendable(ms[i])
    ensures Parse(EncodeAll(ms) + rest) == ms + Parse(rest)
  {
    hide Encode, Head, SizeAt, Complete;
    if ms == [] {
      assert EncodeAll(ms) + rest == rest;
    } else {
      var more := EncodeAll(ms[1..]) + rest;
      assert EncodeAll(ms) + rest == Encode(ms[0]) + more;
      HeadOfEncoded(ms[0], more);
      assert (Encode(ms[0]) + more)[8 + |ms[0].body|..] == more;
      ParseOfEncoded(ms[1..], rest);
    }
  }

  /** A whole message in the buffer is the head of everything pending. */
  lemma HeadOfBuffer(buf: seq<byte>, rest: seq<byte>)
    requires 8 <= |buf| <= 1024 && 8 <= SizeAt(buf) <= |buf|
    ensures Complete(buf + rest)
    ensures var size := SizeAt(buf);
            && Head(buf + rest) == Msg(Get32(buf, 0), Get32(buf, 4) % 65536, buf[8..size])
            && (buf + rest)[size..] == buf[size..] + rest
  {
    BufferAgrees(buf, rest);
    hide Get32;
    var size := SizeAt(buf);
    assert (buf + rest)[8..size] == buf[8..size];
  }

  lemma BufferAgrees(buf: seq<byte>, rest: seq<byte>)
    requires 8 <= |buf|
    ensures Get32(buf + rest, 0) == Get32(buf, 0) && Get32(buf + rest, 4) == Get32(buf, 4)
  {
  }

  /** With no more to come, or no more room, the buffer decides that nothing whole is there. */
  lemma NeverComplete(buf: seq<byte>, rest: seq<byte>)
    requires |buf| <= 1024 && (rest == [] || |buf| == 1024)
    requires |buf| >= 8 ==> !(8 <= SizeAt(buf) <= |buf|)
    ensures !Complete(buf + rest)
  {
    if |buf| >= 8 {
      BufferAgrees(buf, rest);
    }
  }

  /** How much of a body the caller's 256-byte array receives. */
  function Kept(n: nat): nat
  {
    if n < 256 then n else 256
  }

  /** Messages as a caller sees them: whole, but for what of a body is beyond 256 bytes. */
  function Received(ms: seq<Msg>): (r: seq<Msg>)
    ensures |r| == |ms|
    ensures forall i :: 0 <= i < |ms| ==>
              && r[i].obj == ms[i].obj && r[i].op == ms[i].op && r[i].body <= ms[i].body
              && (|r[i].body| == |ms[i].body| || |r[i].body| == 256 < |ms[i].body|)
  {
    if ms == [] then [] else [ms[0].(body := ms[0].body[..Kept(|ms[0].body|)])] + Received(ms[1..])
  }

  lemma ParseStep(s: seq<byte>)
    ensures !Complete(s) ==> Received(Parse(s)) == []
    ensures Complete(s) ==>
              var m := Head(s);
              && 8 + |m.body| == SizeAt(s) <= |s|
              && Received(Parse(s)) == [m.(body := m.body[..Kept(|m.body|)])] + Received(Parse(s[8 + |m.body|..]))
  {
    if Complete(s) {
      assert Parse(s)[1..] == Parse(s[SizeAt(s)..]);
    }
  }

  predicate AllFit(ms: seq<Msg>)
  {
    forall i :: 0 <= i < |ms| ==> Sendable(ms[i]) && |ms[i].body| <= 256
  }

  lemma {:induction false} ReceivedWhole(ms: seq<Msg>)
    requires forall i :: 0 <= i < |ms| ==> |ms[i].body| <= 256
    ensures Received(ms) == ms
  {
    var r := Received(ms);
    forall i | 0 <= i < |ms|
      ensures r[i] == ms[i]
    {
      assert r[i].body == ms[i].body;
    }
  }

  /** Messages that a caller's array holds, written one after the other, arrive as they were sent. */
  lemma ArriveAsSent(ms: seq<Msg>, rest: seq<byte>)
    requires AllFit(ms) && !Complete(rest)
    ensures Received(Parse(EncodeAll(ms) + rest)) == ms
  {
    hide Received, Encode, EncodeAll, Complete;
    ParseOfEncoded(ms, rest);
    assert ms + [] == ms;
    ReceivedWhole(ms);
  }

  function ArgBytes(args: seq<nat>): (r: seq<byte>)
    ensures |r| == 4 * |args|
  {
    if args == [] then [] else ArgBytes(args[..|args| - 1]) + Put32(args[|args| - 1])
  }

  lemma ArgBytesNone(args: seq<nat>)
    ensures ArgBytes(args[..0]) == []
  {
  }

  lemma ArgBytesSnoc(args: seq<nat>, i: nat)
    requires i < |args|
    ensures ArgBytes(args[..i + 1]) == ArgBytes(args[..i]) + Put32(args[i])
  {
    assert args[..i + 1][..i] == args[..i];
  }

  /** A request: an object, an opcode and 32-bit arguments that fit the 64-byte message buffer. */
  datatype Request = Request(obj: nat, op: nat, args: seq<nat>)

  predicate ValidRequest(q: Request)
  {
    && q.obj < 0x1_0000_0000 && q.op < 65536 && |q.args| <= 14
    && forall i :: 0 <= i < |q.args| ==> q.args[i] < 0x1_0000_0000
  }

  function AsMsg(q: Request): Msg
  {
    Msg(q.obj, q.op, ArgBytes(q.args))
  }

  /** Each argument can be read back from the body it was sent in. */
  lemma {:induction false} ArgReadsBack(args: seq<nat>, i: nat)
    requires i < |args| && forall j :: 0 <= j < |args| ==> args[j] < 0x1_0000_0000
    ensures Get32(ArgBytes(args), 4 * i) == args[i]
  {
    var n, b := |args| - 1, ArgBytes(args);
    if i < n {
      ArgReadsBack(args[..n], i);
      assert b[..4 * n] == ArgBytes(args[..n]);
      assert forall k :: 0 <= k < 4 * n ==> b[k] == ArgBytes(args[..n])[k];
    } else {
      assert b[4 * n..] == Put32(args[n]);
      Get32OfPut32(args[n], b, 4 * n);
    }
  }

  /** What is sent comes back unchanged, argument by argument, whatever follows it. */
  lemma SentComesBack(q: Request, rest: seq<byte>, j: nat)
    requires ValidRequest(q) && j < |q.args|
    ensures Sendable(AsMsg(q)) && Complete(Encode(AsMsg(q)) + rest)
    ensures Head(Encode(AsMsg(q)) + rest) == AsMsg(q)
    ensures Get32(AsMsg(q).body, 4 * j) == q.args[j]
  {
    hide Get32, Put32, Complete, Head, ArgBytes, Encode;
    HeadOfEncoded(AsMsg(q), rest);
    ArgReadsBack(q.args, j);
  }

  // ---- the connection -----------------------------------------------------------------

  /** The peer's bytes not yet read, and ours already written. */
  class Socket {
    var incoming: seq<byte>
    var outgoing: seq<byte>

    /** Some of the bytes that are there, however the stream happens to be cut; none at the end. */
    method Read(n: nat) returns (chunk: seq<byte>)
      modifies this`incoming
      ensures old(incoming) == chunk + incoming && |chunk| <= n
      ensures chunk == [] <==> n == 0 || old(incoming) == []
    {
      if n == 0 || incoming == [] {
        return [];
      }
      var r :| 1 <= r <= n && r <= |incoming|;
      chunk, incoming := incoming[..r], incoming[r..];
    }

    method Write(bytes: seq<byte>)
      modifies this`outgoing
      ensures outgoing == old(outgoing) + bytes
    {
      outgoing := outgoing + bytes;
    }
  }

  class Context {
    const sock: Socket
    const rbuf: array<byte>
    var rlen: nat

    ghost predicate Valid()
      reads this
    {
      rbuf.Length == 1024 && rlen <= 1024
    }

    /** Everything received or still to come that no call has consumed. */
    ghost function Pending(): seq<byte>
      requires Valid()
      reads this, rbuf, sock
    {
      rbuf[..rlen] + sock.incoming
    }

    constructor (sock: Socket)
      ensures Valid() && this.sock == sock && rlen == 0 && fresh(rbuf)
    {
      this.sock := sock;
      rbuf := new byte[1024];
      rlen := 0;
    }

    /**
      The next message: its header fields, up to 256 bytes of its body in `body`,
      and its body length; or false when no whole message that fits the buffer is
      ever going to be there.  The outcome depends on the pending bytes only,
      never on how they are cut into reads.
     */
    method Recv(body: array<byte>) returns (ok: bool, obj: nat, op: nat, blen: nat)
      requires Valid() && body.Length == 256 && body != rbuf
      modifies this`rlen, rbuf, sock`incoming, body
      ensures Valid()
      ensures ok == Complete(old(Pending()))
      ensures !ok ==> Pending() == old(Pending())
      ensures ok ==>
                var m := Head(old(Pending()));
                && obj == m.obj && op == m.op && blen == |m.body|
                && (forall j :: 0 <= j < blen && j < 256 ==> body[j] == m.body[j])
                && Pending() == old(Pending())[8 + blen..]
    {
      hide Get32, Complete, Head;
      while true
        invariant Valid() && Pending() == old(Pending())
        decreases |sock.incoming|
      {
        ghost var buf, rest := rbuf[..rlen], sock.incoming;
        if rlen >= 8 {
          var w2 := Get32(rbuf[..rlen], 4);
          var size := w2 / 65536;
          if size >= 8 && rlen >= size {
            HeadOfBuffer(buf, rest);
            obj := Get32(rbuf[..rlen], 0);
            op := w2 % 65536;
            var bl := size - 8;
            CopyBody(body, bl);
            blen := bl;
            assert forall j :: 0 <= j < bl && j < 256 ==> body[j] == buf[8..size][j];
            ShiftDown(size);
            ok := true;
            return;
          }
        }
        var chunk := sock.Read(1024 - rlen);
        if chunk == [] {
          NeverComplete(buf, rest);
          return false, 0, 0, 0;
        }
        Append(chunk);
        assert buf + chunk + sock.incoming == buf + rest;
      }
    }

    /**
      Message after message until none is left: exactly the parse of the stream,
      each body cut to the 256 bytes a caller gets, whatever the reads were.  So
      messages with no longer bodies arrive as they were sent.
     */
    method RecvAll() returns (got: seq<Msg>)
      requires Valid()
      modifies this`rlen, rbuf, sock`incoming
      ensures got == Received(Parse(old(Pending())))
      ensures forall ms, rest :: AllFit(ms) && !Complete(rest) && old(Pending()) == EncodeAll(ms) + rest ==> got == ms
    {
      hide Complete, Head, Parse, Received, SizeAt;
      got := [];
      var body := new byte[256];
      ghost var goal := Received(Parse(Pending()));
      while true
        invariant Valid() && fresh(body) && got + Received(Parse(Pending())) == goal
        decreases |Pending()|
      {
        ghost var pending := Pending();
        ParseStep(pending);
        var ok, obj, op, blen := Recv(body);
        if !ok {
          assert got + [] == got;
          forall ms, rest | AllFit(ms) && !Complete(rest) && old(Pending()) == EncodeAll(ms) + rest
            ensures got == ms
          {
            ArriveAsSent(ms, rest);
          }
          return;
        }
        assert body[..Kept(blen)] == Head(pending).body[..Kept(blen)];
        got := got + [Msg(obj, op, body[..Kept(blen)])];
      }
    }

    /** Put a request on the wire. */
    method Send(obj: nat, opcode: nat, args: seq<nat>)
      requires ValidRequest(Request(obj, opcode, args))
      modifies sock`outgoing
      ensures Sendable(AsMsg(Request(obj, opcode, args)))
      ensures sock.outgoing == old(sock.outgoing) + Encode(AsMsg(Request(obj, opcode, args)))
    {
      hide Put32, ArgBytes;
      var msg := new byte[64];
      var size := 8 + |args| * 4;
      ArgBytesNone(args);
      Put(msg, 0, obj);
      Put(msg, 4, size * 65536 + opcode);
      for i := 0 to |args|
        invariant msg[..8 + 4 * i] == Put32(obj) + Put32(size * 65536 + opcode) + ArgBytes(args[..i])
        modifies msg
      {
        ArgBytesSnoc(args, i);
        Put(msg, 8 + i * 4, args[i]);
      }
      assert args[..|args|] == args;
      assert msg[..size] == Encode(AsMsg(Request(obj, opcode, args)));
      sock.Write(msg[..size]);
    }

    static method Put(msg: array<byte>, k: nat, v: nat)
      requires k + 4 <= msg.Length && v < 0x1_0000_0000
      modifies msg
      ensures msg[..k + 4] == old(msg[..k]) + Put32(v)
    {
      msg[k] := v % 256;
      msg[k + 1] := v / 256 % 256;
      msg[k + 2] := v / 256 / 256 % 256;
      msg[k + 3] := v / 256 / 256 / 256 % 256;
      assert msg[..k] == old(msg[..k]);
    }

    method CopyBody(body: array<byte>, bl: nat)
      requires Valid() && body.Length == 256 && body != rbuf && 8 + bl <= rlen
      modifies body
      ensures forall j :: 0 <= j < bl && j < 256 ==> body[j] == rbuf[8 + j]
    {
      var i := 0;
      while i < bl && i < 256
        invariant i <= bl && i <= 256
        invariant forall j :: 0 <= j < i ==> body[j] == rbuf[8 + j]
      {
        body[i] := rbuf[8 + i];
        i := i + 1;
      }
    }

    /** Drop the first `size` buffered bytes by moving the rest down in place. */
    method ShiftDown(size: nat)
      requires Valid() && size <= rlen
      modifies this`rlen, rbuf
      ensures Valid() && rbuf[..rlen] == old(rbuf[size..rlen])
    {
      for i := size to rlen
        invariant forall j :: 0 <= j < i - size ==> rbuf[j] == old(rbuf[j + size])
        invariant forall j :: i - size <= j < rlen ==> rbuf[j] == old(rbuf[j])
        modifies rbuf
      {
        rbuf[i - size] := rbuf[i];
      }
      rlen := rlen - size;
    }

    method Append(chunk: seq<byte>)
      requires Valid() && rlen + |chunk| <= 1024
      modifies this`rlen, rbuf
      ensures Valid() && rlen == old(rlen) + |chunk| && rbuf[..rlen] == old(rbuf[..rlen]) + chunk
    {
      for i := 0 to |chunk|
        invariant rbuf[..rlen + i] == old(rbuf[..rlen]) + chunk[..i]
        modifies rbuf
      {
        rbuf[rlen + i] := chunk[i];
      }
      rlen := rlen + |chunk|;
    }
  }
}
