/** modules/keyholder/files/ssh-agent-proxy.py: the sign request codec, the message framing, and
    what of a client's traffic reaches the agent. */
module SshAgentProxy {
  import opened Common

  newtype byte = x: int | 0 <= x < 256

  type Bytes = seq<byte>

  const LIMIT: int := 0x1_0000_0000

  type uint32 = n: int | 0 <= n < LIMIT

  const REQUEST_IDENTITIES: byte := 11
  const SIGN_REQUEST: byte := 13
  const REQUEST_RSA_IDENTITIES: byte := 1
  const AGENT_FAILURE: byte := 5

  const FLAGS: set<int> := {0, 1, 2, 4}

  // ---------------------------------------------------------------- length-prefixed strings

  /** Four bytes, most significant first. */
  function Pack(n: uint32): (b: Bytes)
    ensures |b| == 4
  {
    [(n / 0x100_0000) as byte, (n / 0x1_0000 % 256) as byte, (n / 0x100 % 256) as byte, (n % 256) as byte]
  }

  function Unpack(b: Bytes, offset: nat): Option<uint32>
  {
    if offset + 4 > |b| then None
    else Some(b[offset] as int * 0x100_0000 + b[offset + 1] as int * 0x1_0000 + b[offset + 2] as int * 0x100 + b[offset + 3] as int)
  }

  lemma UnpackPack(before: Bytes, n: uint32, after: Bytes)
    ensures Unpack(before + Pack(n) + after, |before|) == Some(n)
  {
    var b, p := before + Pack(n) + after, Pack(n);
    assert b[|before|] == p[0] && b[|before| + 1] == p[1] && b[|before| + 2] == p[2] && b[|before| + 3] == p[3];
    Digits256(n);
  }

  lemma Digits256(n: uint32)
    ensures n == n / 0x100_0000 * 0x100_0000 + n / 0x1_0000 % 256 * 0x1_0000 + n / 0x100 % 256 * 0x100 + n % 256
  {
    var a := n / 256;
    var b := a / 256;
    assert n / 0x1_0000 == b && n / 0x100_0000 == b / 256;
  }

  lemma PackUnpack(b: Bytes, offset: nat)
    requires offset + 4 <= |b|
    ensures Pack(Unpack(b, offset).value) == b[offset..offset + 4]
  {
    var w, x, y, z := b[offset] as int, b[offset + 1] as int, b[offset + 2] as int, b[offset + 3] as int;
    var n := Unpack(b, offset).value;
    assert n / 0x100_0000 == w && n / 0x1_0000 == w * 256 + x && n / 0x100 == (w * 256 + x) * 256 + y;
  }

  /** unpack_variable_length_string; None for struct.error. */
  function UnpackString(b: Bytes, offset: nat): Option<(Bytes, nat)>
  {
    var n := Unpack(b, offset);
    if n.None? || offset + 4 + n.value > |b| then None
    else Some((b[offset + 4..offset + 4 + n.value], offset + 4 + n.value))
  }

  function PackString(s: Bytes): Bytes
    requires |s| < LIMIT
  {
    Pack(|s|) + s
  }

  lemma Slices(b: Bytes, i: nat, j: nat, k: nat)
    requires i <= j <= k <= |b|
    ensures b[i..k] == b[i..j] + b[j..k]
    ensures b[i..k][..j - i] == b[i..j] && b[i..k][j - i..] == b[j..k]
  {
  }

  /** A string is read at an offset exactly when its encoding stands there. */
  lemma StringAt(b: Bytes, offset: nat, s: Bytes)
    ensures UnpackString(b, offset) == Some((s, offset + 4 + |s|)) <==>
            |s| < LIMIT && offset + 4 + |s| <= |b| && b[offset..offset + 4 + |s|] == PackString(s)
  {
    if UnpackString(b, offset) == Some((s, offset + 4 + |s|)) {
      PackUnpack(b, offset);
      Slices(b, offset, offset + 4, offset + 4 + |s|);
    } else if |s| < LIMIT && offset + 4 + |s| <= |b| && b[offset..offset + 4 + |s|] == PackString(s) {
      var after := b[offset + 4..];
      Slices(b, offset, offset + 4, offset + 4 + |s|);
      assert PackString(s)[..4] == Pack(|s|) && PackString(s)[4..] == s;
      assert b == b[..offset] + Pack(|s|) + after;
      UnpackPack(b[..offset], |s|, after);
    }
  }

  lemma WriteString(before: Bytes, s: Bytes, after: Bytes)
    requires |s| < LIMIT
    ensures UnpackString(before + PackString(s) + after, |before|) == Some((s, |before| + 4 + |s|))
  {
    var b := before + PackString(s) + after;
    assert b[|before|..|before| + 4 + |s|] == PackString(s);
    StringAt(b, |before|, s);
  }

  lemma ReadString(b: Bytes, offset: nat)
    requires UnpackString(b, offset).Some?
    ensures var (s, end) := UnpackString(b, offset).value;
            end == offset + 4 + |s| <= |b| && |s| < LIMIT && b[offset..end] == PackString(s)
  {
    StringAt(b, offset, UnpackString(b, offset).value.0);
  }

  // ---------------------------------------------------------------- sign requests

  datatype SignRequest = SignRequest(keyBlob: Bytes, data: Bytes, flags: int)

  datatype Result = Ok(request: SignRequest) | StructError | ProtocolError

  function ParseSignRequest(m: Bytes): Result
  {
    var k := UnpackString(m, 0);
    if k.None? then StructError
    else
      var d := UnpackString(m, k.value.1);
      if d.None? then StructError
      else
        var f := Unpack(m, d.value.1);
        if f.None? then StructError
        else if d.value.1 + 4 != |m| then ProtocolError
        else if f.value !in FLAGS then ProtocolError
        else Ok(SignRequest(k.value.0, d.value.0, f.value))
  }

  predicate Encodable(r: SignRequest)
  {
    |r.keyBlob| < LIMIT && |r.data| < LIMIT && r.flags in FLAGS
  }

  function Encode(r: SignRequest): Bytes
    requires Encodable(r)
  {
    PackString(r.keyBlob) + PackString(r.data) + Pack(r.flags)
  }

  lemma Regroup(a: Bytes, b: Bytes, c: Bytes)
    ensures [] + a + (b + c) == a + b + c == (a + b) + c + []
  {
  }

  lemma Encoded(r: SignRequest)
    requires Encodable(r)
    ensures ParseSignRequest(Encode(r)) == Ok(r)
  {
    var a, b, c := PackString(r.keyBlob), PackString(r.data), Pack(r.flags);
    Regroup(a, b, c);
    WriteString([], r.keyBlob, b + c);
    WriteString(a, r.data, c);
    UnpackPack(a + b, r.flags, []);
    ParsedPieces(a + b + c, r, |a|, |a + b|);
  }

  lemma ParsedPieces(m: Bytes, r: SignRequest, i: nat, j: nat)
    requires UnpackString(m, 0) == Some((r.keyBlob, i)) && UnpackString(m, i) == Some((r.data, j))
    requires Unpack(m, j) == Some(r.flags) && j + 4 == |m| && r.flags in FLAGS
    ensures ParseSignRequest(m) == Ok(r)
  {
  }

  lemma Decoded(m: Bytes, r: SignRequest)
    requires ParseSignRequest(m) == Ok(r)
    ensures Encodable(r) && Encode(r) == m
  {
    ReadString(m, 0);
    var i := UnpackString(m, 0).value.1;
    ReadString(m, i);
    var j := UnpackString(m, i).value.1;
    PackUnpack(m, j);
    ThreeSlices(m, i, j);
    assert m[j..] == m[j..j + 4];
  }

  lemma ThreeSlices(m: Bytes, i: nat, j: nat)
    requires i <= j <= |m|
    ensures m == m[0..i] + m[i..j] + m[j..]
  {
  }

  /** Parsing succeeds exactly on complete encodings whose flag is accepted, and undoes them. */
  lemma ParseInvertsEncode(m: Bytes, r: SignRequest)
    ensures ParseSignRequest(m) == Ok(r) <==> Encodable(r) && m == Encode(r)
  {
    if ParseSignRequest(m) == Ok(r) {
      Decoded(m, r);
    } else if Encodable(r) {
      Encoded(r);
    }
  }

  /** The message begins with a key blob, the data to sign and a number, and goes on with `rest`. */
  ghost predicate Begins(m: Bytes, k: Bytes, d: Bytes, flags: uint32, rest: Bytes)
  {
    |k| < LIMIT && |d| < LIMIT && m == PackString(k) + PackString(d) + Pack(flags) + rest
  }

  lemma BeginsIsRead(m: Bytes, k: Bytes, d: Bytes, flags: uint32, rest: Bytes)
    requires Begins(m, k, d, flags, rest)
    ensures var i, j := 4 + |k|, 8 + |k| + |d|;
            && UnpackString(m, 0) == Some((k, i)) && UnpackString(m, i) == Some((d, j))
            && Unpack(m, j) == Some(flags) && |m| == j + 4 + |rest|
  {
    var a, b, c := PackString(k), PackString(d), Pack(flags);
    FourParts(a, b, c, rest);
    WriteString([], k, b + c + rest);
    WriteString(a, d, c + rest);
    UnpackPack(a + b, flags, rest);
  }

  lemma FourParts(a: Bytes, b: Bytes, c: Bytes, d: Bytes)
    ensures a + b + c + d == [] + a + (b + c + d) == a + b + (c + d)
  {
  }

  lemma ReadBegins(m: Bytes)
    requires UnpackString(m, 0).Some? && UnpackString(m, UnpackString(m, 0).value.1).Some?
    requires Unpack(m, UnpackString(m, UnpackString(m, 0).value.1).value.1).Some?
    ensures var (k, i) := UnpackString(m, 0).value; var (d, j) := UnpackString(m, i).value;
            j + 4 <= |m| && Begins(m, k, d, Unpack(m, j).value, m[j + 4..])
  {
    ReadString(m, 0);
    var i := UnpackString(m, 0).value.1;
    ReadString(m, i);
    var j := UnpackString(m, i).value.1;
    PackUnpack(m, j);
    ThreeSlices(m, i, j);
    assert m[j..] == m[j..j + 4] + m[j + 4..];
  }

  /** The two ways in which parsing fails: the message is cut off, or it is complete but goes on
      behind the flag or has one that is not accepted. */
  lemma ParseErrors(m: Bytes)
    ensures ParseSignRequest(m) == StructError <==> forall k, d, f, rest :: !Begins(m, k, d, f, rest)
    ensures ParseSignRequest(m) == ProtocolError <==> exists k, d, f, rest :: Begins(m, k, d, f, rest) && (rest != [] || f !in FLAGS)
  {
    if ParseSignRequest(m) != StructError {
      ReadBegins(m);
    }
    forall k, d, f: uint32, rest | Begins(m, k, d, f, rest)
      ensures ParseSignRequest(m) == if rest != [] || f !in FLAGS then ProtocolError else Ok(SignRequest(k, d, f))
    {
      BeginsIsRead(m, k, d, f, rest);
    }
  }

  // ---------------------------------------------------------------- framing

  /** A payload whose length, with the code, fits the four-byte size. */
  type Payload = b: Bytes | |b| + 1 < LIMIT

  datatype Message = Message(code: byte, payload: Payload)

  /** send_message. */
  function Frame(m: Message): Bytes
  {
    Pack(|m.payload| + 1) + [m.code] + m.payload
  }

  /** What recv_message takes off a stream: a message and what is left, no code when the header is
      not complete, or ValueError for a size of 0. A payload cut off by the end of the stream is
      taken as it is. */
  datatype Received = NoCode | BadSize | Got(message: Message, rest: Bytes)

  function Receive(stream: Bytes): Received
  {
    if |stream| < 5 then NoCode
    else
      var size := Unpack(stream, 0).value;
      if size == 0 then BadSize
      else
        var end := if 4 + size <= |stream| then 4 + size else |stream|;
        Got(Message(stream[4], stream[5..end]), stream[end..])
  }

  lemma ReceiveFrame(m: Message, rest: Bytes)
    ensures Receive(Frame(m) + rest) == Got(m, rest)
  {
    var stream, n := Frame(m) + rest, |m.payload| + 1;
    assert stream == [] + Pack(n) + ([m.code] + m.payload + rest);
    UnpackPack([], n, [m.code] + m.payload + rest);
    assert stream[5..4 + n] == m.payload && stream[4 + n..] == rest;
  }

  function Frames(ms: seq<Message>): Bytes
  {
    if ms == [] then [] else Frame(ms[0]) + Frames(ms[1..])
  }

  /** The messages of a stream, up to where recv_message finds none. */
  function Messages(stream: Bytes): seq<Message>
    decreases |stream|
  {
    match Receive(stream)
    case NoCode => []
    case BadSize => []
    case Got(m, rest) => [m] + Messages(rest)
  }

  /** What is left of a stream when `n` messages have been taken off it. */
  function Left(stream: Bytes, n: nat): Bytes
    requires n <= |Messages(stream)|
    decreases n
  {
    if n == 0 then stream else Left(Receive(stream).rest, n - 1)
  }

  lemma {:induction false} LeftNext(stream: Bytes, n: nat)
    requires n < |Messages(stream)|
    ensures var r := Receive(Left(stream, n)); r.Got? && r.message == Messages(stream)[n] && Left(stream, n + 1) == r.rest
    decreases n
  {
    if n > 0 { LeftNext(Receive(stream).rest, n - 1); }
  }

  lemma {:induction false} MessagesLeft(stream: Bytes, n: nat)
    requires n <= |Messages(stream)|
    ensures Messages(Left(stream, n)) == Messages(stream)[n..]
    decreases n
  {
    if n > 0 { MessagesLeft(Receive(stream).rest, n - 1); }
  }

  /** Framing loses and mixes nothing: what is sent is what is read on the other side. */
  lemma {:induction false} FramesRoundTrip(ms: seq<Message>)
    ensures Messages(Frames(ms)) == ms
  {
    if ms != [] {
      FramesRoundTrip(ms[1..]);
      ReceiveFrame(ms[0], Frames(ms[1..]));
    }
  }

  // ---------------------------------------------------------------- filtering

  datatype Verdict = Forward | Refuse | Raise

  /** handle_client_request: what becomes of a message, given which keys the client may use. */
  function Judge(m: Message, mayUse: Bytes -> bool): Verdict
  {
    if m.code == REQUEST_IDENTITIES || m.code == REQUEST_RSA_IDENTITIES then
      if m.payload != [] then Raise else Forward
    else if m.code == SIGN_REQUEST then
      match ParseSignRequest(m.payload)
      case Ok(r) => if mayUse(r.keyBlob) then Forward else Refuse
      case StructError => Raise
      case ProtocolError => Raise
    else Refuse
  }

  /** The client's messages that are dealt with: up to a zero code or an exception. */
  function Served(ms: seq<Message>, mayUse: Bytes -> bool): seq<Message>
  {
    if ms == [] || ms[0].code == 0 || Judge(ms[0], mayUse) == Raise then [] else [ms[0]] + Served(ms[1..], mayUse)
  }

  function Filter(ms: seq<Message>, keep: Message -> bool): seq<Message>
  {
    if ms == [] then [] else (if keep(ms[0]) then [ms[0]] else []) + Filter(ms[1..], keep)
  }

  lemma {:induction false} FilterSnoc(ms: seq<Message>, m: Message, keep: Message -> bool)
    ensures Filter(ms + [m], keep) == Filter(ms, keep) + if keep(m) then [m] else []
  {
    if ms == [] {
      assert ms + [m] == [m];
    } else {
      FilterSnoc(ms[1..], m, keep);
      assert (ms + [m])[1..] == ms[1..] + [m];
    }
  }

  function Judged(ms: seq<Message>, mayUse: Bytes -> bool, v: Verdict): seq<Message>
  {
    Filter(ms, (m: Message) => Judge(m, mayUse) == v)
  }

  lemma JudgedSnoc(ms: seq<Message>, m: Message, mayUse: Bytes -> bool, v: Verdict)
    ensures Judged(ms + [m], mayUse, v) == if Judge(m, mayUse) == v then Judged(ms, mayUse, v) + [m] else Judged(ms, mayUse, v)
  {
    FilterSnoc(ms, m, (x: Message) => Judge(x, mayUse) == v);
    assert Judged(ms, mayUse, v) + [] == Judged(ms, mayUse, v);
  }

  lemma {:induction false} FramesSnoc(ms: seq<Message>, m: Message)
    ensures Frames(ms + [m]) == Frames(ms) + Frame(m)
  {
    if ms == [] {
      assert ms + [m] == [m];
    } else {
      assert (ms + [m])[1..] == ms[1..] + [m];
      FramesSnoc(ms[1..], m);
    }
  }

  predicate ListsIdentities(m: Message)
  {
    m.code == REQUEST_IDENTITIES || m.code == REQUEST_RSA_IDENTITIES
  }

  /** The message is a complete sign request, for a key that the client may use or may not. */
  ghost predicate Signs(m: Message, mayUse: Bytes -> bool, allowed: bool)
  {
    m.code == SIGN_REQUEST && exists r :: Encodable(r) && m.payload == Encode(r) && mayUse(r.keyBlob) == allowed
  }

  lemma SignsIffParsed(m: Message, mayUse: Bytes -> bool, allowed: bool)
    requires m.code == SIGN_REQUEST
    ensures Signs(m, mayUse, allowed) <==>
            ParseSignRequest(m.payload).Ok? && mayUse(ParseSignRequest(m.payload).request.keyBlob) == allowed
  {
    var p := ParseSignRequest(m.payload);
    if p.Ok? { Decoded(m.payload, p.request); }
    if r :| Encodable(r) && m.payload == Encode(r) && mayUse(r.keyBlob) == allowed { Encoded(r); }
  }

  /** Forwarded is what lists identities or signs with a key that the client may use. */
  lemma ForwardMeansPermitted(m: Message, mayUse: Bytes -> bool)
    ensures Judge(m, mayUse) == Forward <==> (ListsIdentities(m) && m.payload == []) || Signs(m, mayUse, true)
  {
    if m.code == SIGN_REQUEST { SignsIffParsed(m, mayUse, true); }
  }

  /** Refused, and answered by a failure, is what signs with a key that the client may not use, and
      every message of another code. */
  lemma RefuseMeansForbidden(m: Message, mayUse: Bytes -> bool)
    ensures Judge(m, mayUse) == Refuse <==> (!ListsIdentities(m) && m.code != SIGN_REQUEST) || Signs(m, mayUse, false)
  {
    if m.code == SIGN_REQUEST { SignsIffParsed(m, mayUse, false); }
  }

  /** An exception meets what lists identities with trailing bytes and what is no complete sign
      request. */
  lemma RaiseMeansMalformed(m: Message, mayUse: Bytes -> bool)
    ensures Judge(m, mayUse) == Raise <==>
            || (ListsIdentities(m) && m.payload != [])
            || (m.code == SIGN_REQUEST && forall r :: Encodable(r) ==> m.payload != Encode(r))
  {
    if m.code == SIGN_REQUEST {
      SignsIffParsed(m, mayUse, true);
      SignsIffParsed(m, mayUse, false);
    }
  }

  lemma {:induction false} ServedIsPrefix(ms: seq<Message>, mayUse: Bytes -> bool)
    ensures |Served(ms, mayUse)| <= |ms| && Served(ms, mayUse) == ms[..|Served(ms, mayUse)|]
  {
    if Served(ms, mayUse) != [] { ServedIsPrefix(ms[1..], mayUse); }
  }

  lemma {:induction false} ServedFrom(ms: seq<Message>, mayUse: Bytes -> bool, i: nat)
    requires i <= |Served(ms, mayUse)| <= |ms|
    ensures Served(ms[i..], mayUse) == Served(ms, mayUse)[i..]
  {
    if i > 0 {
      ServedIsPrefix(ms[1..], mayUse);
      ServedFrom(ms[1..], mayUse, i - 1);
      assert ms[1..][i - 1..] == ms[i..];
    }
  }

  /** The next thing on the stream makes the handler raise: a size of 0, or a message that cannot
      be read as what its code says. */
  predicate Raises(stream: Bytes, mayUse: Bytes -> bool)
  {
    match Receive(stream)
    case NoCode => false
    case BadSize => true
    case Got(m, _) => m.code != 0 && Judge(m, mayUse) == Raise
  }

  /** Where the handler stands after `n` served messages: it serves one more or stops. */
  lemma AtMessage(stream: Bytes, mayUse: Bytes -> bool, n: nat)
    requires n <= |Served(Messages(stream), mayUse)| <= |Messages(stream)|
    ensures var r, served := Receive(Left(stream, n)), Served(Messages(stream), mayUse);
            if r.Got? && r.message.code != 0 && Judge(r.message, mayUse) != Raise then
              && n < |served| && served[..n + 1] == served[..n] + [r.message]
              && Left(stream, n + 1) == r.rest
            else n == |served|
  {
    ServedFrom(Messages(stream), mayUse, n);
    MessagesLeft(stream, n);
    if n < |Messages(stream)| { LeftNext(stream, n); }
  }

  class Handler {
    const mayUse: Bytes -> bool
    var backend: Bytes  // what was sent to the agent
    var client: Bytes   // what was sent back to the client

    constructor (mayUse: Bytes -> bool)
      ensures this.mayUse == mayUse && backend == [] && client == []
    {
      this.mayUse, backend, client := mayUse, [], [];
    }

    /** The client's side of the handler loop on what the client sends. The agent gets exactly the
        permitted messages, whole and in order, and the client one failure for each refused one. */
    method Handle(stream: Bytes) returns (raised: bool)
      requires backend == [] && client == []
      modifies this
      ensures var served := Served(Messages(stream), mayUse);
              && Messages(backend) == Judged(served, mayUse, Forward)
              && Messages(client) == Failures(|Judged(served, mayUse, Refuse)|)
              && |served| <= |Messages(stream)| && (raised <==> Raises(Left(stream, |served|), mayUse))
    {
      ghost var n, served := 0, Served(Messages(stream), mayUse);
      var rest, open := stream, true;
      ServedIsPrefix(Messages(stream), mayUse);
      raised := false;
      while open
        invariant n <= |served| && rest == Left(stream, n)
        invariant if open then !raised else n == |served| && (raised <==> Raises(rest, mayUse))
        invariant backend == Frames(Judged(served[..n], mayUse, Forward))
        invariant client == Frames(Failures(|Judged(served[..n], mayUse, Refuse)|))
        decreases |rest|, open
      {
        AtMessage(stream, mayUse, n);
        var received := Receive(rest);
        if received.NoCode? || (received.Got? && received.message.code == 0) {
          open := false;
        } else if received.BadSize? || Judge(received.message, mayUse) == Raise {
          open, raised := false, true;
        } else {
          ServeOne(served[..n], received.message);
          n, rest := n + 1, received.rest;
        }
      }
      assert served[..n] == served;
      FramesRoundTrip(Judged(served, mayUse, Forward));
      FramesRoundTrip(Failures(|Judged(served, mayUse, Refuse)|));
    }

    method ServeOne(ghost done: seq<Message>, m: Message)
      requires Judge(m, mayUse) != Raise
      requires backend == Frames(Judged(done, mayUse, Forward))
      requires client == Frames(Failures(|Judged(done, mayUse, Refuse)|))
      modifies this
      ensures backend == Frames(Judged(done + [m], mayUse, Forward))
      ensures client == Frames(Failures(|Judged(done + [m], mayUse, Refuse)|))
    {
      JudgedSnoc(done, m, mayUse, Forward);
      JudgedSnoc(done, m, mayUse, Refuse);
      if Judge(m, mayUse) == Forward {
        FramesSnoc(Judged(done, mayUse, Forward), m);
        backend := backend + Frame(m);
      } else {
        FramesSnoc(Failures(|Judged(done, mayUse, Refuse)|), Message(AGENT_FAILURE, []));
        client := client + Frame(Message(AGENT_FAILURE, []));
      }
    }
  }

  function Failures(n: nat): (f: seq<Message>)
    ensures |f| == n && forall m :: m in f ==> m == Message(AGENT_FAILURE, [])
  {
    if n == 0 then [] else Failures(n - 1) + [Message(AGENT_FAILURE, [])]
  }
}
