/**
 The MQTT wire code of GenWatch (services/mqtt.py): the Remaining Length field and the packets of
 MQTT 3.1.1 (sections 2.2.3, 3.1 and 3.3), a reader over a socket that delivers bytes in chunks of
 any size, and the connect-publish-disconnect session.

 Bytes are numbers below 256. Strings come as their UTF-8 bytes.
 */
module Mqtt {
  import opened Prelude

  type Byte = b: int | 0 <= b < 256

  type Bytes = seq<Byte>

  const FOUR_BYTES := 268435456 // 128 to the fourth

  datatype Error = Overflow | Closed | Malformed

  datatype Packet = Packet(first: Byte, body: Bytes)

  // ---------------------------------------------------------------------------------- encoding

  /** The Remaining Length field: seven bits a byte, the least significant first, each byte but
      the last marked. */
  function RemainingLength(n: nat): (r: Bytes)
    ensures r != []
  {
    if n < 128 then [n] else [128 + n % 128] + RemainingLength(n / 128)
  }

  method EncodeRemainingLength(n: nat) returns (out: Bytes)
    ensures out == RemainingLength(n)
  {
    out := [];
    var m := n;
    while m >= 128
      invariant m >= 0 && out + RemainingLength(m) == RemainingLength(n)
    {
      out := out + [128 + m % 128];
      m := m / 128;
    }
    out := out + [m];
  }

  /** A packet on the wire. */
  function Frame(p: Packet): Bytes {
    [p.first] + RemainingLength(|p.body|) + p.body
  }

  /** Two bytes, the more significant first. */
  function Word(n: nat): Bytes
    requires n < 65536
  {
    [n / 256, n % 256]
  }

  /** The number in two bytes. */
  function Number(high: Byte, low: Byte): nat {
    256 * (high as int) + low
  }

  /** A length in two bytes, then the string. */
  function EncodeString(b: Bytes): Result<Bytes, Error> {
    if |b| < 65536 then Ok(Word(|b|) + b) else Err(Overflow)
  }

  const PROTOCOL: Bytes := [0x4D, 0x51, 0x54, 0x54] // "MQTT"

  /** The PUBLISH packet, before framing. */
  function PublishPacket(p: Publish): Result<Packet, Error> {
    var topic := EncodeString(p.topic);
    if topic.Err? || (p.qos > 0 && p.packetId >= 65536) then Err(Overflow)
    else
      Ok(Packet(0x30 + 2 * (p.qos % 4) + (if p.retain then 1 else 0),
                topic.value + (PacketId(p) + p.payload)))
  }

  /** The packet number, which only goes with a quality above 0. */
  function PacketId(p: Publish): Bytes
    requires p.qos > 0 ==> p.packetId < 65536
  {
    if p.qos > 0 then Word(p.packetId) else []
  }

  datatype Publish = Publish(topic: Bytes, payload: Bytes, qos: nat, retain: bool, packetId: nat)

  function BuildPublish(p: Publish): Result<Bytes, Error> {
    var packet := PublishPacket(p);
    if packet.Err? then Err(packet.error) else Ok(Frame(packet.value))
  }

  datatype Connect = Connect(clientId: Bytes, username: Bytes, password: Bytes, keepalive: nat)
  {
    /** The fields that are sent: a password only goes with a user name. */
    predicate SendsPassword() { username != [] && password != [] }

    predicate Fits() {
      |clientId| < 65536 && |username| < 65536 && keepalive < 65536 && (SendsPassword() ==> |password| < 65536)
    }
  }

  method BuildConnect(c: Connect) returns (r: Result<Bytes, Error>)
    ensures r.Ok? <==> c.Fits()
    ensures r.Ok? ==> r.value == Frame(ConnectPacket(c))
  {
    var flags := 0x02;
    var id := EncodeString(c.clientId);
    if id.Err? {
      return Err(Overflow);
    }
    var payload := id.value;
    if c.username != [] {
      flags := flags + 0x80;
      var user := EncodeString(c.username);
      if user.Err? {
        return Err(Overflow);
      }
      payload := payload + user.value;
      if c.password != [] {
        flags := flags + 0x40;
        var secret := EncodeString(c.password);
        if secret.Err? {
          return Err(Overflow);
        }
        payload := payload + secret.value;
      }
    }
    if c.keepalive >= 65536 {
      return Err(Overflow);
    }
    var header := Word(4) + PROTOCOL + ([0x04, flags] + Word(c.keepalive));
    var length := EncodeRemainingLength(|header + payload|);
    r := Ok([0x10] + length + (header + payload));
    assert header + payload == ConnectPacket(c).body;
  }

  /** The CONNECT packet, before framing. */
  function ConnectPacket(c: Connect): Packet
    requires c.Fits()
  {
    Packet(0x10, Word(4) + PROTOCOL + (Header(c) + (Word(|c.clientId|) + c.clientId + User(c))))
  }

  function Header(c: Connect): Bytes
    requires c.Fits()
  {
    [0x04, Flags(c)] + Word(c.keepalive)
  }

  function Flags(c: Connect): Byte {
    2 + (if c.username != [] then 128 else 0) + (if c.SendsPassword() then 64 else 0)
  }

  function User(c: Connect): Bytes
    requires c.Fits()
  {
    (if c.username != [] then Word(|c.username|) + c.username else [])
    + (if c.SendsPassword() then Word(|c.password|) + c.password else [])
  }

  // ---------------------------------------------------------------------------------- decoding

  /** The low seven bits of a byte. */
  function Digit(e: Byte): nat {
    if e < 128 then e else e - 128
  }

  datatype Length = Len(value: nat, used: nat) | Short | Bad

  /** The length that a byte string starts with, in at most `left` bytes. */
  function DecodeLength(s: Bytes, left: nat): Length
    requires left > 0
  {
    if s == [] then Short
    else if s[0] < 128 then Len(s[0], 1)
    else if left == 1 then Bad
    else
      match DecodeLength(s[1..], left - 1)
      case Len(v, u) => Len(Digit(s[0]) + 128 * v, u + 1)
      case Short => Short
      case Bad => Bad
  }

  datatype Parsed = Parsed(result: Result<Packet, Error>, rest: Bytes)

  /** The packet that a byte string starts with, and what follows it; without one, what is left
      once reading has failed. */
  function Parse(s: Bytes): Parsed {
    if s == [] then Parsed(Err(Closed), [])
    else
      var t := s[1..];
      match DecodeLength(t, 4)
      case Short => Parsed(Err(Closed), [])
      case Bad => Parsed(Err(Malformed), if |t| >= 4 then t[4..] else [])
      case Len(n, used) =>
        if |t| < used + n then Parsed(Err(Closed), [])
        else Parsed(Ok(Packet(s[0], t[used..][..n])), t[used..][n..])
  }

  /** A socket: the bytes still to come until the peer closes, and what was sent. How `Recv` cuts
      them into chunks is up to the schedule. */
  class Socket {
    var incoming: Bytes
    var schedule: seq<nat>
    var sent: seq<Bytes>

    constructor (incoming: Bytes, schedule: seq<nat>)
      ensures this.incoming == incoming && sent == []
    {
      this.incoming, this.schedule, sent := incoming, schedule, [];
    }

    /** Some bytes, at least one unless the peer has closed, and at most `max`. */
    method Recv(max: nat) returns (chunk: Bytes)
      requires max > 0
      modifies this`incoming, this`schedule
      ensures chunk + incoming == old(incoming) && |chunk| <= max
      ensures chunk == [] ==> old(incoming) == []
    {
      var size := if schedule == [] || schedule[0] == 0 then 1 else schedule[0];
      schedule := if schedule == [] then [] else schedule[1..];
      size := if size > max then max else size;
      size := if size > |incoming| then |incoming| else size;
      chunk := incoming[..size];
      incoming := incoming[size..];
    }

    method SendAll(data: Bytes)
      modifies this`sent
      ensures sent == old(sent) + [data]
    {
      sent := sent + [data];
    }
  }

  /** Exactly `n` bytes, or all of them and an error when the peer closes before that. */
  method RecvExact(sock: Socket, n: nat) returns (r: Result<Bytes, Error>)
    modifies sock`incoming, sock`schedule
    ensures r.Ok? <==> n <= |old(sock.incoming)|
    ensures r.Ok? ==> |r.value| == n && r.value + sock.incoming == old(sock.incoming)
    ensures r.Err? ==> r.error == Closed && sock.incoming == []
  {
    var data: Bytes := [];
    while |data| < n
      invariant |data| <= n && data + sock.incoming == old(sock.incoming)
    {
      var chunk := sock.Recv(n - |data|);
      if chunk == [] {
        return Err(Closed);
      }
      data := data + chunk;
    }
    r := Ok(data);
  }

  /** 128 to the power `k`. */
  function Weight(k: nat): nat
    requires k <= 4
  {
    if k == 0 then 1 else if k == 1 then 128 else if k == 2 then 16384 else if k == 3 then 2097152 else FOUR_BYTES
  }

  function Scaled(k: nat, v: nat): nat
    requires k <= 4
  {
    v * Weight(k)
  }

  lemma {:induction false} ScaledStep(k: nat, d: nat, v: nat)
    requires k < 4
    ensures Scaled(k, d + 128 * v) == Scaled(k, d) + Scaled(k + 1, v)
    ensures Scaled(k, d) == d * Weight(k)
  {
    if k == 0 {
    } else if k == 1 {
    } else if k == 2 {
    } else {
    }
  }

  /** What the whole length is, once `length` has been read from `used`, given what the bytes
      that follow decode to. */
  predicate Reached(used: Bytes, tail: Bytes, length: nat)
    requires |used| < 4
  {
    DecodeLength(used + tail, 4)
    == match DecodeLength(tail, 4 - |used|)
       case Len(v, u) => Len(length + Scaled(|used|, v), u + |used|)
       case Short => Short
       case Bad => Bad
  }

  /** One more byte of the length. */
  lemma {:induction false} ReachedStep(used: Bytes, e: Byte, tail: Bytes, length: nat)
    requires |used| < 4 && Reached(used, [e] + tail, length)
    ensures used + [e] + tail == used + ([e] + tail)
    ensures e < 128 ==> DecodeLength(used + [e] + tail, 4) == Len(length + Scaled(|used|, e), |used| + 1)
    ensures e >= 128 && |used| < 3 ==> Reached(used + [e], tail, length + Scaled(|used|, Digit(e)))
    ensures e >= 128 && |used| == 3 ==> DecodeLength(used + [e] + tail, 4) == Bad
  {
    assert used + [e] + tail == used + ([e] + tail);
    assert ([e] + tail)[1..] == tail;
    if e >= 128 && |used| < 3 {
      var after := DecodeLength(tail, 3 - |used|);
      if after.Len? {
        ScaledStep(|used|, Digit(e), after.value);
      }
    }
  }

  /** What a packet that has been read piece by piece parses as. */
  lemma {:induction false} ParsePieces(first: Byte, used: Bytes, rest: Bytes)
    ensures var d := DecodeLength(used + rest, 4); var all := [first] + (used + rest);
            && (d.Short? ==> Parse(all) == Parsed(Err(Closed), []))
            && (d.Bad? ==> Parse(all).result == Err(Malformed))
            && (d.Bad? && |used| == 4 ==> Parse(all) == Parsed(Err(Malformed), rest))
            && (d.Len? && d.used == |used| && d.value > |rest| ==> Parse(all) == Parsed(Err(Closed), []))
            && (d.Len? && d.used == |used| && d.value <= |rest|
                ==> Parse(all) == Parsed(Ok(Packet(first, rest[..d.value])), rest[d.value..]))
  {
    assert ([first] + (used + rest))[1..] == used + rest;
    assert (used + rest)[|used|..] == rest;
  }

  /** Reads one packet. However the bytes arrive, it is the packet that they start with, and
      nothing beyond it is taken from the socket. */
  method ReadPacket(sock: Socket) returns (r: Result<Packet, Error>)
    modifies sock`incoming, sock`schedule
    ensures Parsed(r, sock.incoming) == Parse(old(sock.incoming))
  {
    var first := RecvExact(sock, 1);
    if first.Err? {
      return Err(Closed);
    }
    var mult: nat := 1;
    var length: nat := 0;
    ghost var tail, used: Bytes := sock.incoming, [];
    assert old(sock.incoming) == [first.value[0]] + tail;
    assert used + tail == tail;
    while true
      invariant |used| < 4 && mult == Weight(|used|)
      invariant used + sock.incoming == tail && Reached(used, sock.incoming, length)
      decreases 4 - |used|
    {
      ParsePieces(first.value[0], used, sock.incoming);
      var enc := RecvExact(sock, 1);
      if enc.Err? {
        return Err(Closed);
      }
      var e := enc.value[0];
      assert enc.value == [e];
      ReachedStep(used, e, sock.incoming, length);
      used := used + [e];
      length := length + Digit(e) * mult;
      if e < 128 {
        break;
      }
      mult := mult * 128;
      if mult > 2097152 {
        ParsePieces(first.value[0], used, sock.incoming);
        return Err(Malformed);
      }
    }
    ParsePieces(first.value[0], used, sock.incoming);
    if length == 0 {
      return Ok(Packet(first.value[0], []));
    }
    var body := RecvExact(sock, length);
    if body.Err? {
      return Err(Closed);
    }
    r := Ok(Packet(first.value[0], body.value));
  }

  // ------------------------------------------------------------------------------ round trips

  lemma Joined(a: Bytes, b: Bytes, c: Bytes)
    ensures a + b + c == a + (b + c)
    ensures (a + b)[..|a|] == a && (a + b)[|a|..] == b
  {
  }

  lemma {:induction false} DecodesWithin(n: nat, left: nat, rest: Bytes)
    requires 1 <= left <= 4
    ensures n < Weight(left)
            ==> |RemainingLength(n)| <= left
                && DecodeLength(RemainingLength(n) + rest, left) == Len(n, |RemainingLength(n)|)
    ensures n >= Weight(left)
            ==> |RemainingLength(n)| > left && DecodeLength(RemainingLength(n) + rest, left) == Bad
    decreases left
  {
    var r := RemainingLength(n);
    if n >= 128 && left > 1 {
      DecodesWithin(n / 128, left - 1, rest);
      assert n / 128 < Weight(left - 1) <==> n < Weight(left) by {
        if left == 2 {
        } else if left == 3 {
        } else {
        }
      }
      assert (r + rest)[1..] == RemainingLength(n / 128) + rest;
    }
  }

  /** A length decodes to itself, in one to four bytes, exactly when it is below 128 to the
      fourth; any larger one is malformed to every reader. */
  lemma {:induction false} LengthRoundTrip(n: nat, rest: Bytes)
    ensures DecodeLength(RemainingLength(n) + rest, 4) == Len(n, |RemainingLength(n)|) <==> n < FOUR_BYTES
    ensures 1 <= |RemainingLength(n)| <= 4 <==> n < FOUR_BYTES
    ensures n >= FOUR_BYTES ==> DecodeLength(RemainingLength(n) + rest, 4) == Bad
  {
    DecodesWithin(n, 4, rest);
  }

  /** A packet on the wire parses as itself, with nothing of what follows taken, exactly when its
      length fits the field. */
  lemma {:induction false} FrameRoundTrip(p: Packet, rest: Bytes)
    ensures Parse(Frame(p) + rest) == Parsed(Ok(p), rest) <==> |p.body| < FOUR_BYTES
    ensures Parse(Frame(p) + rest).result == (if |p.body| < FOUR_BYTES then Ok(p) else Err(Malformed))
  {
    var length, tail := RemainingLength(|p.body|), p.body + rest;
    LengthRoundTrip(|p.body|, tail);
    ParsePieces(p.first, length, tail);
    Joined([p.first] + length, p.body, rest);
    Joined([p.first], length, tail);
    Joined(p.body, rest, []);
  }

  /** The bytes of several packets in a row. */
  function Stream(ps: seq<Packet>): Bytes {
    if ps == [] then [] else Frame(ps[0]) + Stream(ps[1..])
  }

  predicate AllFit(ps: seq<Packet>) {
    ps == [] || (|ps[0].body| < FOUR_BYTES && AllFit(ps[1..]))
  }

  lemma {:induction false} StreamParses(ps: seq<Packet>, rest: Bytes)
    requires ps != [] && AllFit(ps)
    ensures Parse(Stream(ps) + rest) == Parsed(Ok(ps[0]), Stream(ps[1..]) + rest)
  {
    Joined(Frame(ps[0]), Stream(ps[1..]), rest);
    FrameRoundTrip(ps[0], Stream(ps[1..]) + rest);
  }

  /** The next packet of a stream. */
  method ReadNext(sock: Socket, ghost ps: seq<Packet>, ghost rest: Bytes) returns (p: Packet)
    requires ps != [] && AllFit(ps) && sock.incoming == Stream(ps) + rest
    modifies sock`incoming, sock`schedule
    ensures p == ps[0] && sock.incoming == Stream(ps[1..]) + rest && AllFit(ps[1..])
  {
    StreamParses(ps, rest);
    var r := ReadPacket(sock);
    assert r == Ok(ps[0]);
    p := r.value;
  }

  /** Packets sent one after the other are read back one after the other, the same and in order,
      however the socket cuts the stream into chunks. */
  method ReadPackets(sock: Socket, n: nat, ghost ps: seq<Packet>, ghost rest: Bytes) returns (r: seq<Packet>)
    requires |ps| == n && AllFit(ps) && sock.incoming == Stream(ps) + rest
    modifies sock`incoming, sock`schedule
    ensures r == ps && sock.incoming == rest
  {
    r := [];
    ghost var left := ps;
    while |r| < n
      invariant r + left == ps && |r| + |left| == n && AllFit(left) && sock.incoming == Stream(left) + rest
    {
      var p := ReadNext(sock, left, rest);
      r := r + [p];
      left := left[1..];
    }
  }

  datatype Taken = Taken(text: Bytes, rest: Bytes) | Missing

  /** A string with its length before it. */
  function TakeString(s: Bytes): Taken {
    if |s| < 2 || |s| - 2 < Number(s[0], s[1]) then Missing
    else
      var n := Number(s[0], s[1]);
      Taken(s[2..][..n], s[2..][n..])
  }

  lemma {:induction false} TakesString(b: Bytes, rest: Bytes)
    requires |b| < 65536
    ensures TakeString(Word(|b|) + b + rest) == Taken(b, rest)
  {
    Joined(Word(|b|), b, rest);
    Joined(Word(|b|), b + rest, []);
    Joined(b, rest, []);
  }

  /** How a receiver reads a PUBLISH packet (section 3.3 of MQTT 3.1.1). */
  function DecodePublish(p: Packet): Option<Publish> {
    if p.first / 16 != 3 || p.first / 8 % 2 == 1 then None
    else DecodeMessage(p.first / 2 % 4, p.first % 2 == 1, p.body)
  }

  function DecodeMessage(qos: nat, retain: bool, body: Bytes): Option<Publish> {
    match TakeString(body)
    case Missing => None
    case Taken(topic, rest) =>
      if qos == 0 then Some(Publish(topic, rest, 0, retain, 0))
      else if qos > 2 || |rest| < 2 then None
      else Some(Publish(topic, rest[2..], qos, retain, Number(rest[0], rest[1])))
  }

  /** A message, read back by the receiver's rules, is the message that was sent, exactly when
      the quality of service is one that exists and the packet fits the length field; the builder
      refuses just the topics and packet numbers that two bytes cannot hold. */
  lemma {:induction false} PublishRoundTrip(p: Publish, rest: Bytes)
    ensures BuildPublish(p).Ok? <==> |p.topic| < 65536 && (p.qos > 0 ==> p.packetId < 65536)
    ensures BuildPublish(p).Ok?
            ==> (Received(BuildPublish(p).value + rest, p, rest)
                 <==> p.qos <= 2 && |PublishPacket(p).value.body| < FOUR_BYTES)
  {
    if BuildPublish(p).Ok? {
      var packet := PublishPacket(p).value;
      FrameRoundTrip(packet, rest);
      PublishDecodes(p);
    }
  }

  /** A reader finds the message, and then `rest`. */
  predicate Received(s: Bytes, p: Publish, rest: Bytes) {
    var parsed := Parse(s);
    && parsed.result.Ok? && parsed.rest == rest
    && DecodePublish(parsed.result.value) == Some(p.(packetId := if p.qos > 0 then p.packetId else 0))
  }

  lemma HeaderBits(first: Byte, qos: nat, retain: bool)
    requires qos < 4 && first == 0x30 + 2 * qos + (if retain then 1 else 0)
    ensures first / 16 == 3 && first / 8 % 2 == 0 && first / 2 % 4 == qos && (first % 2 == 1 <==> retain)
  {
  }

  lemma {:induction false} PublishDecodes(p: Publish)
    requires PublishPacket(p).Ok?
    ensures DecodePublish(PublishPacket(p).value) == Some(p.(packetId := if p.qos > 0 then p.packetId else 0))
            <==> p.qos <= 2
  {
    HeaderBits(PublishPacket(p).value.first, p.qos % 4, p.retain);
    MessageDecodes(p, p.qos % 4);
  }

  lemma {:induction false} MessageDecodes(p: Publish, qos: nat)
    requires PublishPacket(p).Ok? && (qos == p.qos <==> p.qos < 4)
    ensures DecodeMessage(qos, p.retain, PublishPacket(p).value.body)
            == Some(p.(packetId := if p.qos > 0 then p.packetId else 0))
            <==> p.qos <= 2
  {
    TakesString(p.topic, PacketId(p) + p.payload);
    Joined(PacketId(p), p.payload, []);
    if p.qos > 0 {
      WordNumber(p.packetId, p.payload);
    }
  }

  lemma WordNumber(n: nat, rest: Bytes)
    requires n < 65536
    ensures var s := Word(n) + rest; |s| >= 2 && Number(s[0], s[1]) == n && s[2..] == rest
  {
  }

  /** How a receiver reads a CONNECT packet (section 3.1 of MQTT 3.1.1), for a clean session
      without a will. */
  function DecodeConnect(p: Packet): Option<Connect> {
    match TakeString(p.body)
    case Missing => None
    case Taken(name, rest) => if p.first != 0x10 || name != [0x4D, 0x51, 0x54, 0x54] then None else DecodeHeader(rest)
  }

  /** The level, the flags, the keep-alive time and the client. */
  function DecodeHeader(s: Bytes): Option<Connect> {
    if |s| < 4 || s[0] != 4 then None
    else
      match TakeString(s[4..])
      case Missing => None
      case Taken(id, rest) => DecodeUser(s[1], rest, Connect(id, [], [], Number(s[2], s[3])))
  }

  /** The user name and the password, as the flags say. */
  function DecodeUser(flags: Byte, s: Bytes, c: Connect): Option<Connect> {
    if flags == 2 then (if s == [] then Some(c) else None)
    else if flags != 130 && flags != 194 then None
    else
      match TakeString(s)
      case Missing => None
      case Taken(user, rest) =>
        if flags == 130 then (if rest == [] then Some(c.(username := user)) else None)
        else
          match TakeString(rest)
          case Missing => None
          case Taken(secret, last) => if last == [] then Some(c.(username := user, password := secret)) else None
  }

  /** A CONNECT packet always fits the length field, and is read back as what was sent; of a
      password without a user name nothing is sent. */
  lemma {:induction false} ConnectRoundTrip(c: Connect)
    requires c.Fits()
    ensures |ConnectPacket(c).body| < FOUR_BYTES
    ensures DecodeConnect(ConnectPacket(c)) == Some(c.(password := if c.SendsPassword() then c.password else []))
  {
    TakesString(PROTOCOL, Header(c) + (Word(|c.clientId|) + c.clientId + User(c)));
    HeaderDecodes(c);
  }

  lemma {:induction false} HeaderDecodes(c: Connect)
    requires c.Fits()
    ensures DecodeHeader(Header(c) + (Word(|c.clientId|) + c.clientId + User(c)))
            == Some(c.(password := if c.SendsPassword() then c.password else []))
  {
    var id := Word(|c.clientId|) + c.clientId + User(c);
    Joined([0x04, Flags(c)], Word(c.keepalive), id);
    WordNumber(c.keepalive, id);
    Joined(Header(c), id, []);
    TakesString(c.clientId, User(c));
    UserDecodes(c, Connect(c.clientId, [], [], c.keepalive));
  }

  lemma {:induction false} UserDecodes(c: Connect, blank: Connect)
    requires c.Fits() && blank == Connect(c.clientId, [], [], c.keepalive)
    ensures DecodeUser(Flags(c), User(c), blank)
            == Some(c.(password := if c.SendsPassword() then c.password else []))
  {
    if c.username != [] {
      if c.SendsPassword() {
        TakesString(c.username, Word(|c.password|) + c.password);
        TakesString(c.password, []);
        assert Word(|c.password|) + c.password + [] == Word(|c.password|) + c.password;
      } else {
        TakesString(c.username, []);
      }
    }
  }

  // ---------------------------------------------------------------------------------- a session

  /** How a publish ends. An overflow is not among the errors that the session catches. */
  datatype Outcome = Delivered | Refused(code: Byte) | Failed | Raised

  /** The broker's first packet is a CONNACK with a return code. */
  predicate HasConnack(s: Bytes) {
    var p := Parse(s).result;
    p.Ok? && p.value.first / 16 == 2 && |p.value.body| >= 2
  }

  function ReturnCode(s: Bytes): Byte
    requires HasConnack(s)
  {
    Parse(s).result.value.body[1]
  }

  /** The broker's packet after the CONNACK acknowledges packet 1. */
  predicate Acknowledges(s: Bytes) {
    var p := Parse(s).result;
    p.Ok? && p.value.first / 16 == 4 && |p.value.body| >= 2 && Number(p.value.body[0], p.value.body[1]) == 1
  }

  predicate Accepts(c: Connect, answer: Bytes) {
    c.Fits() && HasConnack(answer) && ReturnCode(answer) == 0
  }

  /** What counts as an answer: a CONNACK (section 3.2) is a packet of type 2 whose second byte is
      the return code, a PUBACK (section 3.4) one of type 4 that begins with the packet number. */
  lemma {:induction false} AnswersAreRead(p: Packet, rest: Bytes)
    requires |p.body| < FOUR_BYTES
    ensures HasConnack(Frame(p) + rest) <==> 0x20 <= p.first < 0x30 && |p.body| >= 2
    ensures HasConnack(Frame(p) + rest) ==> ReturnCode(Frame(p) + rest) == p.body[1]
    ensures Acknowledges(Frame(p) + rest)
            <==> 0x40 <= p.first < 0x50 && |p.body| >= 2 && p.body[0] == 0 && p.body[1] == 1
  {
    FrameRoundTrip(p, rest);
  }

  lemma ShortFrame(p: Packet)
    requires |p.body| == 2
    ensures Frame(p) == [p.first, 2, p.body[0], p.body[1]]
  {
    assert RemainingLength(2) == [2];
  }

  /** A broker that accepts and then acknowledges number 1, byte by byte as it does so, has the
      connection accepted and the message acknowledged; with any other return code or number it has
      not. */
  lemma {:induction false} BrokerAnswers(c: Connect, session: Byte, code: Byte, id: nat, rest: Bytes)
    requires id < 65536 && c.Fits()
    ensures var answer := [0x20, 2, session, code] + ([0x40, 2, id / 256, id % 256] + rest);
            && (Accepts(c, answer) <==> code == 0)
            && (Acknowledges(Parse(answer).rest) <==> id == 1)
  {
    var connack, puback := Packet(0x20, [session, code]), Packet(0x40, [id / 256, id % 256]);
    var then_ := Frame(puback) + rest;
    ShortFrame(connack);
    ShortFrame(puback);
    FrameRoundTrip(connack, then_);
    AnswersAreRead(connack, then_);
    AnswersAreRead(puback, rest);
  }

  /** Connects, and waits for the broker to accept; or says how it failed. */
  method Greet(sock: Socket, c: Connect) returns (failure: Option<Outcome>)
    modifies sock
    ensures failure.None? <==> Accepts(c, old(sock.incoming))
    ensures failure == Some(Raised) <==> !c.Fits()
    ensures c.Fits() && HasConnack(old(sock.incoming)) && ReturnCode(old(sock.incoming)) != 0
            ==> failure == Some(Refused(ReturnCode(old(sock.incoming))))
    ensures c.Fits() && !HasConnack(old(sock.incoming)) ==> failure == Some(Failed)
    ensures failure.None? ==> sock.incoming == Parse(old(sock.incoming)).rest
    ensures sock.sent == old(sock.sent) + if c.Fits() then [Frame(ConnectPacket(c))] else []
  {
    var hello := BuildConnect(c);
    if hello.Err? {
      return Some(Raised);
    }
    sock.SendAll(hello.value);
    var connack := ReadPacket(sock);
    if connack.Err? {
      return Some(Failed);
    }
    if connack.value.first / 16 != 2 {
      return Some(Failed);
    }
    if |connack.value.body| < 2 {
      return Some(Failed);
    }
    var code := connack.value.body[1];
    if code != 0 {
      return Some(Refused(code));
    }
    failure := None;
  }

  /** Connects, publishes and disconnects. The message goes out exactly when the broker has
      accepted the connection, and it is reported delivered exactly when, at quality 1, the broker
      has acknowledged it too. */
  method PublishOnce(sock: Socket, c: Connect, p: Publish) returns (outcome: Outcome)
    requires p.packetId == 1
    modifies sock
    ensures var answer, packet := old(sock.incoming), BuildPublish(p);
            && (outcome.Delivered? <==> Accepts(c, answer) && packet.Ok?
                                        && (p.qos == 1 ==> Acknowledges(Parse(answer).rest)))
            && (outcome.Raised? <==> !c.Fits() || (Accepts(c, answer) && packet.Err?))
            && (outcome.Refused? <==> c.Fits() && HasConnack(answer) && ReturnCode(answer) != 0)
            && (outcome.Refused? ==> outcome.code == ReturnCode(answer))
    ensures var answer, packet := old(sock.incoming), BuildPublish(p);
            sock.sent == old(sock.sent)
                         + (if c.Fits() then [Frame(ConnectPacket(c))] else [])
                         + (if Accepts(c, answer) && packet.Ok? then [packet.value] else [])
                         + (if outcome.Delivered? then [[0xE0, 0x00]] else [])
  {
    var failure := Greet(sock, c);
    if failure.Some? {
      return failure.value;
    }
    var packet := BuildPublish(p);
    if packet.Err? {
      return Raised;
    }
    sock.SendAll(packet.value);
    if p.qos == 1 {
      var puback := ReadPacket(sock);
      if puback.Err? || puback.value.first / 16 != 4 {
        return Failed;
      }
      if |puback.value.body| < 2 || Number(puback.value.body[0], puback.value.body[1]) != p.packetId {
        return Failed;
      }
    }
    sock.SendAll([0xE0, 0x00]);
    outcome := Delivered;
  }
}
