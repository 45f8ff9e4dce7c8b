/**
  The SPA wire format (crates/fwknox-proto/src): header, payload limits, and encrypt-then-MAC
  framing. The cryptography and MessagePack are functions of a `Suite`; `Lawful` states what
  the framing relies on.
 */
module Wire {
  import opened Bytes
  import opened Options

  // ----- protocol values -----

  datatype Protocol = Tcp | Udp
  datatype PortProto = PortProto(proto: Protocol, port: nat)
  datatype SocketAddr = SocketAddr(ip: IpAddr, port: nat)

  datatype SpaMessage =
    | Access(sourceIp: IpAddr, ports: seq<PortProto>)
    | Nat(sourceIp: IpAddr, ports: seq<PortProto>, natDest: SocketAddr)
    | LocalNat(sourceIp: IpAddr, ports: seq<PortProto>, natDest: SocketAddr)
    | Command(sourceIp: IpAddr, command: string)

  datatype Payload = Payload(
    nonce: Octets16,
    timestamp: i64,
    username: string,
    message: SpaMessage,
    clientTimeout: Option<nat>
  )

  datatype ProtoError =
    | PacketTooShort(got: nat, need: nat)
    | PacketTooLong(got: nat, max: nat)
    | UnsupportedVersion(version: byte)
    | ReservedFlag(bits: byte)
    | InvalidField(what: string)
    | PayloadEncode
    | PayloadDecode
    | HmacFailed
    | AeadFailed

  datatype Result<+T> = Ok(value: T) | Err(error: ProtoError) {
    predicate IsFailure() { Err? }
    function PropagateFailure<U>(): Result<U>
      requires Err?
    {
      Err(error)
    }
    function Extract(): T
      requires Ok?
    {
      value
    }
  }

  // ----- the abstract primitives -----

  const KEY_LEN := 32
  const NONCE_LEN := 12
  const TAG_LEN := 16
  const HMAC_LEN := 32
  const HEADER_LEN := 4

  datatype Suite = Suite(
    deriveEnc: seq<byte> -> seq<byte>,
    deriveHmac: seq<byte> -> seq<byte>,
    seal: (seq<byte>, seq<byte>, seq<byte>, seq<byte>) -> seq<byte>,      // key, nonce, associated data, plaintext
    open: (seq<byte>, seq<byte>, seq<byte>, seq<byte>) -> Option<seq<byte>>,
    sign: (seq<byte>, seq<byte>) -> seq<byte>,
    pack: Payload -> Option<seq<byte>>,
    unpack: seq<byte> -> Option<Payload>
  )
  {
    /** Sections 2.1 and 2.2 of RFC 5116: decryption inverts encryption and accepts nothing else. */
    ghost predicate AeadLaws() {
      && (forall k, n, a, p {:trigger seal(k, n, a, p)} ::
            |seal(k, n, a, p)| == |p| + TAG_LEN && open(k, n, a, seal(k, n, a, p)) == Some(p))
      && forall k, n, a, c {:trigger open(k, n, a, c)} ::
           open(k, n, a, c).Some? ==> c == seal(k, n, a, open(k, n, a, c).value)
    }

    /** Section 2 of RFC 2104 and section 2 of RFC 5869 fix the output lengths. */
    ghost predicate LengthLaws() {
      && (forall k, m {:trigger sign(k, m)} :: |sign(k, m)| == HMAC_LEN)
      && forall m {:trigger deriveEnc(m)} :: |deriveEnc(m)| == KEY_LEN && |deriveHmac(m)| == KEY_LEN
    }

    ghost predicate PackLaw() {
      forall p {:trigger pack(p)} :: pack(p).Some? ==> unpack(pack(p).value) == Some(p)
    }

    ghost predicate Lawful() {
      AeadLaws() && LengthLaws() && PackLaw()
    }
  }

  function Zeros(n: nat): (s: seq<byte>)
    ensures |s| == n
  {
    seq(n, _ => 0)
  }

  /** The laws contradict neither each other nor a payload that packs: here is a suite that keeps them. */
  lemma LawsAreConsistent(p: Payload)
    ensures exists suite: Suite :: suite.Lawful() && suite.pack(p).Some?
  {
    var suite := Suite(
      m => Zeros(KEY_LEN),
      m => Zeros(KEY_LEN),
      (k, n, a, t) => t + Zeros(TAG_LEN),
      (k, n, a, c) => if |c| >= TAG_LEN && c[|c| - TAG_LEN..] == Zeros(TAG_LEN) then Some(c[..|c| - TAG_LEN]) else None,
      (k, m) => Zeros(HMAC_LEN),
      q => if q == p then Some([]) else None,
      b => if b == [] then Some(p) else None);
    assert suite.AeadLaws();
    assert suite.Lawful() && suite.pack(p).Some?;
  }

  // ----- payload -----

  const MAX_USERNAME_LEN := 64
  const MAX_ENCODED_LEN := 1024

  function Utf8Len(s: string): nat {
    if s == [] then 0
    else
      var c := s[|s| - 1] as int;
      Utf8Len(s[..|s| - 1]) + if c < 0x80 then 1 else if c < 0x800 then 2 else if c < 0x1_0000 then 3 else 4
  }

  predicate Printable(c: char) {
    c == ' ' || '!' <= c <= '~'
  }

  function ValidateStructure(p: Payload): (r: Result<()>) {
    if Utf8Len(p.username) > MAX_USERNAME_LEN then Err(InvalidField("username too long"))
    else if exists i | 0 <= i < |p.username| :: !Printable(p.username[i]) then
      Err(InvalidField("username contains control bytes"))
    else Ok(())
  }

  function EncodePayload(suite: Suite, p: Payload): (r: Result<seq<byte>>)
    ensures r.Ok? ==> |r.value| <= MAX_ENCODED_LEN
  {
    var bytes := suite.pack(p);
    if bytes.None? then Err(PayloadEncode)
    else if |bytes.value| > MAX_ENCODED_LEN then Err(InvalidField("payload too large"))
    else Ok(bytes.value)
  }

  function DecodePayload(suite: Suite, bytes: seq<byte>): (r: Result<Payload>) {
    var p := suite.unpack(bytes);
    if p.None? then Err(PayloadDecode)
    else
      var _ :- ValidateStructure(p.value);
      Ok(p.value)
  }

  /** At most 64 printable ASCII characters. */
  ghost predicate ValidUsername(u: string) {
    |u| <= 64 && forall i | 0 <= i < |u| :: ' ' <= u[i] <= '~'
  }

  lemma {:induction false} Utf8AtLeast(s: string)
    ensures |s| <= Utf8Len(s)
    ensures (forall i | 0 <= i < |s| :: ' ' <= s[i] <= '~') ==> Utf8Len(s) == |s|
  {
    if s != [] { Utf8AtLeast(s[..|s| - 1]); }
  }

  lemma UsernameExactly(p: Payload)
    ensures ValidateStructure(p).Ok? <==> ValidUsername(p.username)
  {
    hide Utf8Len;
    Utf8AtLeast(p.username);
  }

  /** `plaintext` is an encoding of `payload`, whose username is valid. */
  ghost predicate Encodes(suite: Suite, plaintext: seq<byte>, payload: Payload) {
    suite.unpack(plaintext) == Some(payload) && ValidUsername(payload.username)
  }

  lemma DecodeExactly(suite: Suite, plaintext: seq<byte>, payload: Payload)
    ensures DecodePayload(suite, plaintext) == Ok(payload) <==> Encodes(suite, plaintext, payload)
  {
    hide ValidUsername, ValidateStructure;
    UsernameExactly(payload);
  }

  // ----- header -----

  const PROTO_VERSION: byte := 1
  const FLAG_NAT: byte := 1
  const FLAG_CLIENT_TIMEOUT: byte := 2
  const FLAG_COMMAND: byte := 4
  const UNDEFINED_FLAGS: byte := 0xF0    // the complement of the four defined bits

  datatype Header = Header(version: byte, flags: byte, payloadLen: nat)

  function EncodeHeader(h: Header): (bs: seq<byte>)
    requires h.payloadLen < 0x1_0000
    ensures |bs| == HEADER_LEN
  {
    [h.version, h.flags, h.payloadLen / 256, h.payloadLen % 256]
  }

  function BigEndian(hi: nat, lo: nat): nat {
    hi * 256 + lo
  }

  function FlagsFromRaw(b: byte): (r: Result<byte>) {
    var reserved := And(b, UNDEFINED_FLAGS);
    if reserved != 0 then Err(ReservedFlag(reserved)) else Ok(b)
  }

  function DecodeHeader(bs: seq<byte>): (r: Result<Header>) {
    if |bs| < HEADER_LEN then Err(PacketTooShort(|bs|, HEADER_LEN))
    else if bs[0] != PROTO_VERSION then Err(UnsupportedVersion(bs[0]))
    else
      var flags :- FlagsFromRaw(bs[1]);
      Ok(Header(bs[0], flags, BigEndian(bs[2], bs[3])))
  }

  lemma ReservedBits(b: byte)
    ensures FlagsFromRaw(b).Ok? <==> b < 16
    ensures FlagsFromRaw(b).Err? ==> FlagsFromRaw(b).error == ReservedFlag(b - b % 16)
  {
    hide And;
    Pow2Of8();
    assert Pow2(4) == 16;
    assert Shl(0xFF, 4) == 0xF0;
    MaskRoundsDown(b, 4);
  }

  /** Decoding accepts exactly the encodings of current-version headers with defined flags. */
  lemma HeaderRoundTrip(bs: seq<byte>, h: Header)
    requires |bs| == HEADER_LEN
    ensures DecodeHeader(bs) == Ok(h) <==>
              h.version == PROTO_VERSION && h.flags < 16 && h.payloadLen < 0x1_0000 && bs == EncodeHeader(h)
  {
    hide FlagsFromRaw;
    ReservedBits(bs[1]);
    FlagsUnchanged(bs[1]);
    if h.payloadLen < 0x1_0000 && bs == EncodeHeader(h) {
      assert BigEndian(bs[2], bs[3]) == h.payloadLen;
    }
    var n := BigEndian(bs[2], bs[3]);
    assert n / 256 == bs[2] && n % 256 == bs[3];
  }

  lemma FlagsUnchanged(b: byte)
    ensures FlagsFromRaw(b).Ok? ==> FlagsFromRaw(b).value == b
  {}

  /** Setting distinct bits one after the other adds their weights. */
  lemma FlagSums()
    ensures Or(0, FLAG_NAT) == 1 && Or(0, FLAG_COMMAND) == 4 && Or(0, FLAG_CLIENT_TIMEOUT) == 2
    ensures Or(1, FLAG_CLIENT_TIMEOUT) == 3 && Or(4, FLAG_CLIENT_TIMEOUT) == 6
  {
    assert OrBits(0, 0, 5) == 0;
    assert OrBits(0, 1, 6) == 1;
    assert OrBits(0, 2, 7) == 2;
  }

  method DeriveFlags(message: SpaMessage, hasClientTimeout: bool) returns (flags: byte)
    ensures flags == FlagsOf(message, hasClientTimeout)
  {
    hide Or;
    FlagSums();
    flags := 0;
    match message {
      case Access(_, _) =>
      case Nat(_, _, _) => flags := Or(flags, FLAG_NAT);
      case LocalNat(_, _, _) => flags := Or(flags, FLAG_NAT);
      case Command(_, _) => flags := Or(flags, FLAG_COMMAND);
    }
    if hasClientTimeout {
      flags := Or(flags, FLAG_CLIENT_TIMEOUT);
    }
  }

  /** The flag byte is the sum of its independent bits. */
  function FlagsOf(message: SpaMessage, hasClientTimeout: bool): (flags: byte)
    ensures flags < 16
  {
    (match message
     case Access(_, _) => 0
     case Command(_, _) => FLAG_COMMAND
     case _ => FLAG_NAT) + if hasClientTimeout then FLAG_CLIENT_TIMEOUT else 0
  }

  /** What each flag bit says: 1 for NAT, 2 for a client timeout, 4 for a command. */
  lemma FlagBits(message: SpaMessage, hasClientTimeout: bool)
    ensures var f := FlagsOf(message, hasClientTimeout);
            && (f % 2 == 1 <==> message.Nat? || message.LocalNat?)
            && (f / 2 % 2 == 1 <==> hasClientTimeout)
            && (f / 4 % 2 == 1 <==> message.Command?)
            && f / 8 == 0
  {}

  function PayloadFlags(p: Payload): (flags: byte)
    ensures flags < 16
  {
    FlagsOf(p.message, p.clientTimeout.Some?)
  }

  // ----- packets -----

  const MASTER_KEY_LEN := 32
  const MAX_PACKET_LEN := 1500
  const MIN_PACKET_LEN := 64    // header, nonce, tag and HMAC

  /** `header || nonce || seal(plaintext)`, the part the HMAC covers. */
  function Signed(suite: Suite, key: seq<byte>, flags: byte, nonce: seq<byte>, plaintext: seq<byte>): seq<byte>
    requires |plaintext| + TAG_LEN < 0x1_0000
  {
    var header := EncodeHeader(Header(PROTO_VERSION, flags, |plaintext| + TAG_LEN));
    header + nonce + suite.seal(suite.deriveEnc(key), nonce, header, plaintext)
  }

  function Frame(suite: Suite, key: seq<byte>, flags: byte, nonce: seq<byte>, plaintext: seq<byte>): seq<byte>
    requires |plaintext| + TAG_LEN < 0x1_0000
  {
    var signed := Signed(suite, key, flags, nonce, plaintext);
    signed + suite.sign(suite.deriveHmac(key), signed)
  }

  /** `build_packet`; `nonce` is what the random generator returned, if it did not fail. */
  function BuildPacket(suite: Suite, payload: Payload, key: seq<byte>, nonce: Option<seq<byte>>):
    (r: Result<seq<byte>>)
  {
    if |key| != MASTER_KEY_LEN then Err(InvalidField("master_key must be 32 bytes"))
    else
      var plaintext :- EncodePayload(suite, payload);
      if nonce.None? then Err(AeadFailed)
      else
        var packet := Frame(suite, key, PayloadFlags(payload), nonce.value, plaintext);
        if |packet| > MAX_PACKET_LEN then Err(PacketTooLong(|packet|, MAX_PACKET_LEN)) else Ok(packet)
  }

  /** The same, as the source does it: fields are appended to one buffer. */
  method BuildPacketBuffer(suite: Suite, payload: Payload, key: seq<byte>, nonce: Option<seq<byte>>)
    returns (r: Result<seq<byte>>)
    ensures r == BuildPacket(suite, payload, key, nonce)
  {
    if |key| != MASTER_KEY_LEN {
      return Err(InvalidField("master_key must be 32 bytes"));
    }
    var encoded := EncodePayload(suite, payload);
    if encoded.Err? {
      return encoded;
    }
    if nonce.None? {
      return Err(AeadFailed);
    }
    var plaintext := encoded.value;
    var flags := DeriveFlags(payload.message, payload.clientTimeout.Some?);
    var headerBytes := EncodeHeader(Header(PROTO_VERSION, flags, |plaintext| + TAG_LEN));
    var packet := headerBytes;
    packet := packet + nonce.value;
    packet := packet + suite.seal(suite.deriveEnc(key), nonce.value, headerBytes, plaintext);
    var tag := suite.sign(suite.deriveHmac(key), packet);
    packet := packet + tag;
    if |packet| > MAX_PACKET_LEN {
      return Err(PacketTooLong(|packet|, MAX_PACKET_LEN));
    }
    r := Ok(packet);
  }

  function ParsePacket(suite: Suite, wire: seq<byte>, key: seq<byte>): (r: Result<Payload>) {
    if |key| != MASTER_KEY_LEN then Err(InvalidField("master_key must be 32 bytes"))
    else if |wire| < MIN_PACKET_LEN then Err(PacketTooShort(|wire|, MIN_PACKET_LEN))
    else if |wire| > MAX_PACKET_LEN then Err(PacketTooLong(|wire|, MAX_PACKET_LEN))
    else
      var signed, tag := wire[..|wire| - HMAC_LEN], wire[|wire| - HMAC_LEN..];
      if tag != suite.sign(suite.deriveHmac(key), signed) then Err(HmacFailed)
      else ParseSigned(suite, signed, key)
  }

  /** After the HMAC: header, nonce, decryption, decoding, and the flag cross-check. */
  function ParseSigned(suite: Suite, signed: seq<byte>, key: seq<byte>): (r: Result<Payload>)
    requires |signed| >= HEADER_LEN + NONCE_LEN
  {
    var headerBytes := signed[..HEADER_LEN];
    var header :- DecodeHeader(headerBytes);
    var nonce := signed[HEADER_LEN..HEADER_LEN + NONCE_LEN];
    var ciphertext := signed[HEADER_LEN + NONCE_LEN..];
    if |ciphertext| != header.payloadLen then Err(InvalidField("payload_len mismatch"))
    else
      var plaintext := suite.open(suite.deriveEnc(key), nonce, headerBytes, ciphertext);
      if plaintext.None? then Err(AeadFailed)
      else
        var payload :- DecodePayload(suite, plaintext.value);
        if header.flags != PayloadFlags(payload) then Err(InvalidField("flag/payload mismatch")) else Ok(payload)
  }

  /**
    The HMAC gate comes first: among packets of acceptable length, the ones reported as `HmacFailed`
    are exactly those whose last 32 bytes are not the tag of the rest, whatever else is wrong with them.
   */
  lemma HmacGate(suite: Suite, wire: seq<byte>, key: seq<byte>)
    requires |key| == MASTER_KEY_LEN && MIN_PACKET_LEN <= |wire| <= MAX_PACKET_LEN
    ensures ParsePacket(suite, wire, key) == Err(HmacFailed) <==>
              wire[|wire| - HMAC_LEN..] != suite.sign(suite.deriveHmac(key), wire[..|wire| - HMAC_LEN])
  {
    hide FlagsFromRaw, PayloadFlags;
    FlagErrors(wire[1]);
  }

  lemma FlagErrors(b: byte)
    ensures FlagsFromRaw(b).Err? ==> FlagsFromRaw(b).error.ReservedFlag?
  {}

  /** What each parse error says about the packet; the fields are those at their fixed offsets. */
  ghost predicate Faulty(suite: Suite, wire: seq<byte>, key: seq<byte>, e: ProtoError) {
    match e
    case PacketTooShort(got, need) => got == |wire| < 64 == need
    case PacketTooLong(got, max) => got == |wire| > 1500 == max
    case InvalidField(_) => |key| == 32 ==> 64 <= |wire| <= 1500
    case HmacFailed => |wire| >= 64 && wire[|wire| - 32..] != suite.sign(suite.deriveHmac(key), wire[..|wire| - 32])
    case UnsupportedVersion(v) => |wire| >= 64 && v == wire[0] != 1
    case ReservedFlag(b) => |wire| >= 64 && wire[0] == 1 && b == wire[1] - wire[1] % 16 > 0
    case AeadFailed => |wire| >= 64 && Opened(suite, wire, key).None?
    case PayloadDecode =>
      |wire| >= 64 && Opened(suite, wire, key).Some? && suite.unpack(Opened(suite, wire, key).value).None?
    case PayloadEncode => false
  }

  ghost function Opened(suite: Suite, wire: seq<byte>, key: seq<byte>): Option<seq<byte>>
    requires |wire| >= 64
  {
    suite.open(suite.deriveEnc(key), wire[4..16], wire[..4], wire[16..|wire| - 32])
  }

  /** Every parse error is true of the packet, with the values it carries. */
  lemma ParseErrorIsTrue(suite: Suite, wire: seq<byte>, key: seq<byte>)
    requires ParsePacket(suite, wire, key).Err?
    ensures Faulty(suite, wire, key, ParsePacket(suite, wire, key).error)
  {
    hide PayloadFlags, FlagsFromRaw, Utf8Len;
    if |key| == 32 && 64 <= |wire| <= 1500 {
      var signed := wire[..|wire| - 32];
      assert signed[..4] == wire[..4] && signed[4..16] == wire[4..16] && signed[16..] == wire[16..|wire| - 32];
      assert signed[..4][0] == wire[0] && signed[..4][1] == wire[1];
      ReservedBits(wire[1]);
    }
  }

  lemma SignedLength(suite: Suite, key: seq<byte>, flags: byte, nonce: seq<byte>, plaintext: seq<byte>)
    requires suite.Lawful() && |nonce| == NONCE_LEN && |plaintext| + TAG_LEN < 0x1_0000
    ensures |Signed(suite, key, flags, nonce, plaintext)| == HEADER_LEN + NONCE_LEN + |plaintext| + TAG_LEN
    ensures |Frame(suite, key, flags, nonce, plaintext)| == MIN_PACKET_LEN + |plaintext|
  {}

  /** Building never trips over a packet length: it fails only on the key, the payload or the generator. */
  lemma BuildOutcome(suite: Suite, payload: Payload, key: seq<byte>, nonce: Option<seq<byte>>)
    requires suite.Lawful() && (nonce.Some? ==> |nonce.value| == NONCE_LEN)
    ensures var r := BuildPacket(suite, payload, key, nonce);
            && (r.Ok? <==>
                  && |key| == 32 && nonce.Some?
                  && suite.pack(payload).Some? && |suite.pack(payload).value| <= 1024)
            && (r.Ok? ==> 64 <= |r.value| <= 1088)
            && (r.Err? ==> !r.error.PacketTooLong?)
  {
    hide Frame;
    var e := EncodePayload(suite, payload);
    if e.Ok? && nonce.Some? {
      SignedLength(suite, key, PayloadFlags(payload), nonce.value, e.value);
    }
  }

  /** The four fields of a signed part, cut where the parser cuts them. */
  lemma SignedFields(suite: Suite, key: seq<byte>, flags: byte, nonce: seq<byte>, plaintext: seq<byte>)
    requires |nonce| == NONCE_LEN && |plaintext| + TAG_LEN < 0x1_0000
    ensures var s := Signed(suite, key, flags, nonce, plaintext);
            var header := EncodeHeader(Header(PROTO_VERSION, flags, |plaintext| + TAG_LEN));
            && |s| >= HEADER_LEN + NONCE_LEN
            && s[..HEADER_LEN] == header
            && s[HEADER_LEN..HEADER_LEN + NONCE_LEN] == nonce
            && s[HEADER_LEN + NONCE_LEN..] == suite.seal(suite.deriveEnc(key), nonce, header, plaintext)
  {}

  /** The signed parts the parser accepts for `payload` are the framings of its encodings. */
  lemma ParseSignedAccepts(suite: Suite, signed: seq<byte>, key: seq<byte>, payload: Payload)
    requires suite.Lawful() && HEADER_LEN + NONCE_LEN <= |signed| < 0x1_0000
    ensures ParseSigned(suite, signed, key) == Ok(payload) <==>
              exists nonce, plaintext |
                |nonce| == NONCE_LEN && |plaintext| + TAG_LEN < 0x1_0000 &&
                Encodes(suite, plaintext, payload) ::
                signed == Signed(suite, key, PayloadFlags(payload), nonce, plaintext)
  {
    hide DecodeHeader, DecodePayload, Encodes, EncodeHeader, Suite.LengthLaws, Suite.PackLaw;
    var header, nonce := signed[..HEADER_LEN], signed[HEADER_LEN..HEADER_LEN + NONCE_LEN];
    var ct := signed[HEADER_LEN + NONCE_LEN..];
    if ParseSigned(suite, signed, key) == Ok(payload) {
      var h := DecodeHeader(header).value;
      HeaderRoundTrip(header, h);
      var plaintext := suite.open(suite.deriveEnc(key), nonce, header, ct).value;
      DecodeExactly(suite, plaintext, payload);
      assert h == Header(PROTO_VERSION, PayloadFlags(payload), |plaintext| + TAG_LEN);
      assert signed == header + nonce + ct;
      assert signed == Signed(suite, key, PayloadFlags(payload), nonce, plaintext);
    }
    if exists nonce, plaintext |
         |nonce| == NONCE_LEN && |plaintext| + TAG_LEN < 0x1_0000 && Encodes(suite, plaintext, payload) ::
         signed == Signed(suite, key, PayloadFlags(payload), nonce, plaintext) {
      var n, p :| |n| == NONCE_LEN && |p| + TAG_LEN < 0x1_0000 && Encodes(suite, p, payload)
                  && signed == Signed(suite, key, PayloadFlags(payload), n, p);
      DecodeExactly(suite, p, payload);
      SignedFields(suite, key, PayloadFlags(payload), n, p);
      HeaderRoundTrip(header, Header(PROTO_VERSION, PayloadFlags(payload), |p| + TAG_LEN));
    }
  }

  ghost predicate IsFrameOf(suite: Suite, wire: seq<byte>, key: seq<byte>, payload: Payload) {
    exists nonce, plaintext |
      |nonce| == NONCE_LEN && |plaintext| + TAG_LEN < 0x1_0000 && Encodes(suite, plaintext, payload) ::
      wire == Frame(suite, key, PayloadFlags(payload), nonce, plaintext)
  }

  lemma FrameSplits(suite: Suite, wire: seq<byte>, key: seq<byte>, flags: byte, nonce: seq<byte>, plaintext: seq<byte>)
    requires suite.Lawful() && |wire| >= HMAC_LEN && |plaintext| + TAG_LEN < 0x1_0000
    ensures var signed, tag := wire[..|wire| - HMAC_LEN], wire[|wire| - HMAC_LEN..];
            wire == Frame(suite, key, flags, nonce, plaintext) <==>
              signed == Signed(suite, key, flags, nonce, plaintext) && tag == suite.sign(suite.deriveHmac(key), signed)
  {
    hide Signed;
    assert wire == wire[..|wire| - HMAC_LEN] + wire[|wire| - HMAC_LEN..];
  }

  /**
    Acceptance, exactly: a wire image parses to `payload` if and only if the key is 32 bytes, the
    length is in bounds, and the image is header, nonce, sealed encoding and tag under that key,
    with the flags of the payload.
   */
  lemma ParseAccepts(suite: Suite, wire: seq<byte>, key: seq<byte>, payload: Payload)
    requires suite.Lawful()
    ensures ParsePacket(suite, wire, key) == Ok(payload) <==>
              && |key| == 32
              && 64 <= |wire| <= 1500
              && IsFrameOf(suite, wire, key, payload)
  {
    hide ParseSigned, Signed, Frame, Encodes, Suite.Lawful;
    if |key| == MASTER_KEY_LEN && MIN_PACKET_LEN <= |wire| <= MAX_PACKET_LEN {
      var signed, tag := wire[..|wire| - HMAC_LEN], wire[|wire| - HMAC_LEN..];
      ParseSignedAccepts(suite, signed, key, payload);
      if ParsePacket(suite, wire, key) == Ok(payload) {
        var n, p :| |n| == NONCE_LEN && |p| + TAG_LEN < 0x1_0000 && Encodes(suite, p, payload)
                    && signed == Signed(suite, key, PayloadFlags(payload), n, p);
        FrameSplits(suite, wire, key, PayloadFlags(payload), n, p);
      }
      if IsFrameOf(suite, wire, key, payload) {
        var n, p :| |n| == NONCE_LEN && |p| + TAG_LEN < 0x1_0000 && Encodes(suite, p, payload)
                    && wire == Frame(suite, key, PayloadFlags(payload), n, p);
        FrameSplits(suite, wire, key, PayloadFlags(payload), n, p);
      }
    }
  }

  /**
    Packet round trip: what is built from a payload parses back to it if and only if its username is
    valid, which only the parser checks.
   */
  lemma PacketRoundTrip(suite: Suite, payload: Payload, key: seq<byte>, nonce: seq<byte>)
    requires suite.Lawful() && |key| == MASTER_KEY_LEN && |nonce| == NONCE_LEN
    requires EncodePayload(suite, payload).Ok?
    ensures var r := BuildPacket(suite, payload, key, Some(nonce));
            r.Ok? && (ParsePacket(suite, r.value, key) == Ok(payload) <==> ValidUsername(payload.username))
  {
    hide ParsePacket, Frame, ValidUsername;
    BuildOutcome(suite, payload, key, Some(nonce));
    var plaintext := EncodePayload(suite, payload).value;
    var wire := BuildPacket(suite, payload, key, Some(nonce)).value;
    assert suite.unpack(plaintext) == Some(payload);
    assert wire == Frame(suite, key, PayloadFlags(payload), nonce, plaintext);
    ParseAccepts(suite, wire, key, payload);
  }

  /**
    What is on the wire: version, flags and big-endian length; the nonce; the encoding, sealed under the
    encryption key with those four bytes as associated data; and the tag of all that under the HMAC key.
   */
  lemma WireLayout(suite: Suite, payload: Payload, key: seq<byte>, nonce: seq<byte>)
    requires suite.Lawful() && |nonce| == 12 && BuildPacket(suite, payload, key, Some(nonce)).Ok?
    ensures suite.pack(payload).Some?
    ensures var w := BuildPacket(suite, payload, key, Some(nonce)).value;
            var plaintext := suite.pack(payload).value;
            && |w| == 64 + |plaintext|
            && w[0] == 1 && w[1] == FlagsOf(payload.message, payload.clientTimeout.Some?)
            && (w[2] as int) * 256 + w[3] == |plaintext| + 16
            && w[4..16] == nonce
            && w[16..|w| - 32] == suite.seal(suite.deriveEnc(key), nonce, w[..4], plaintext)
            && w[|w| - 32..] == suite.sign(suite.deriveHmac(key), w[..|w| - 32])
  {
    hide FlagsOf;
    var plaintext := suite.pack(payload).value;
    var signed := Signed(suite, key, PayloadFlags(payload), nonce, plaintext);
    var w := BuildPacket(suite, payload, key, Some(nonce)).value;
    SignedFields(suite, key, PayloadFlags(payload), nonce, plaintext);
    SignedLength(suite, key, PayloadFlags(payload), nonce, plaintext);
    assert w == signed + suite.sign(suite.deriveHmac(key), signed);
    assert w[..|w| - 32] == signed;
    assert w[..4] == signed[..4] && w[4..16] == signed[4..16] && w[16..|w| - 32] == signed[16..];
  }
}
