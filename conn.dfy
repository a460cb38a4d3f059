/** The connection core (conn.go): tag-correlated sends, the classification
    of inbound frames, the requeue of failed writes and the liveness probe.
    The websocket, the goroutines and their locks are not modelled; each
    loop of the source appears as one step over the connection's state. */
module Connection {
  import opened Wrappers
  import opened GoStd
  import opened Binary

  // ---------------------------------------------------------------------
  // Metric and flag bytes of binary frames

  /** The metric byte that classifies a binary frame; Go numbers these from 1
      in declaration order. */
  datatype Metric =
    | DebugLog | QueryResume | QueryReceipt | QueryMedia | QueryChat
    | QueryContacts | QueryMessages | Presence | PresenceSubscribe | Group
    | Read | Chat | Received | Pic | Status | Message | QueryActions | Block
    | QueryGroup | QueryPreview | QueryEmoji | QueryMessageInfo | Spam
    | QuerySearch | QueryIdentity | QueryUrl | Profile | Contact | QueryVcard
    | QueryStatus | QueryStatusUpdate | PrivacyStatus | QueryLiveLocations
    | LiveLocation | QueryVname | QueryLabels | Call | QueryCall
    | QueryQuickReplies

  function MetricByte(m: Metric): (b: byte)
    ensures 1 <= b <= 39
  {
    match m
    case DebugLog => 1
    case QueryResume => 2
    case QueryReceipt => 3
    case QueryMedia => 4
    case QueryChat => 5
    case QueryContacts => 6
    case QueryMessages => 7
    case Presence => 8
    case PresenceSubscribe => 9
    case Group => 10
    case Read => 11
    case Chat => 12
    case Received => 13
    case Pic => 14
    case Status => 15
    case Message => 16
    case QueryActions => 17
    case Block => 18
    case QueryGroup => 19
    case QueryPreview => 20
    case QueryEmoji => 21
    case QueryMessageInfo => 22
    case Spam => 23
    case QuerySearch => 24
    case QueryIdentity => 25
    case QueryUrl => 26
    case Profile => 27
    case Contact => 28
    case QueryVcard => 29
    case QueryStatus => 30
    case QueryStatusUpdate => 31
    case PrivacyStatus => 32
    case QueryLiveLocations => 33
    case LiveLocation => 34
    case QueryVname => 35
    case QueryLabels => 36
    case Call => 37
    case QueryCall => 38
    case QueryQuickReplies => 39
  }

  /** The metric a byte stands for. */
  function MetricOf(b: byte): Option<Metric> {
    match b
    case 1 => Some(DebugLog)
    case 2 => Some(QueryResume)
    case 3 => Some(QueryReceipt)
    case 4 => Some(QueryMedia)
    case 5 => Some(QueryChat)
    case 6 => Some(QueryContacts)
    case 7 => Some(QueryMessages)
    case 8 => Some(Presence)
    case 9 => Some(PresenceSubscribe)
    case 10 => Some(Group)
    case 11 => Some(Read)
    case 12 => Some(Chat)
    case 13 => Some(Received)
    case 14 => Some(Pic)
    case 15 => Some(Status)
    case 16 => Some(Message)
    case 17 => Some(QueryActions)
    case 18 => Some(Block)
    case 19 => Some(QueryGroup)
    case 20 => Some(QueryPreview)
    case 21 => Some(QueryEmoji)
    case 22 => Some(QueryMessageInfo)
    case 23 => Some(Spam)
    case 24 => Some(QuerySearch)
    case 25 => Some(QueryIdentity)
    case 26 => Some(QueryUrl)
    case 27 => Some(Profile)
    case 28 => Some(Contact)
    case 29 => Some(QueryVcard)
    case 30 => Some(QueryStatus)
    case 31 => Some(QueryStatusUpdate)
    case 32 => Some(PrivacyStatus)
    case 33 => Some(QueryLiveLocations)
    case 34 => Some(LiveLocation)
    case 35 => Some(QueryVname)
    case 36 => Some(QueryLabels)
    case 37 => Some(Call)
    case 38 => Some(QueryCall)
    case 39 => Some(QueryQuickReplies)
    case _ => None
  }

  /** Every metric has a byte from 1 to 39 that reads back as that metric,
      so distinct metrics have distinct bytes. */
  lemma MetricByteRoundTrip(m: Metric)
    ensures 1 <= MetricByte(m) <= 39
    ensures MetricOf(MetricByte(m)) == Some(m)
  {
    match m {
      case DebugLog =>
      case QueryResume =>
      case QueryReceipt =>
      case QueryMedia =>
      case QueryChat =>
      case QueryContacts =>
      case QueryMessages =>
      case Presence =>
      case PresenceSubscribe =>
      case Group =>
      case Read =>
      case Chat =>
      case Received =>
      case Pic =>
      case Status =>
      case Message =>
      case QueryActions =>
      case Block =>
      case QueryGroup =>
      case QueryPreview =>
      case QueryEmoji =>
      case QueryMessageInfo =>
      case Spam =>
      case QuerySearch =>
      case QueryIdentity =>
      case QueryUrl =>
      case Profile =>
      case Contact =>
      case QueryVcard =>
      case QueryStatus =>
      case QueryStatusUpdate =>
      case PrivacyStatus =>
      case QueryLiveLocations =>
      case LiveLocation =>
      case QueryVname =>
      case QueryLabels =>
      case Call =>
      case QueryCall =>
      case QueryQuickReplies =>
    }
  }

  /** The flag bits of a binary frame, from the top bit down. */
  datatype Flag = Ignore | AckRequest | Available | NotAvailable | Expires | SkipOffline

  const Flags: seq<Flag> := [Ignore, AckRequest, Available, NotAvailable, Expires, SkipOffline]

  function FlagByte(f: Flag): byte {
    match f
    case Ignore => 0x80
    case AckRequest => 0x40
    case Available => 0x20
    case NotAvailable => 0x10
    case Expires => 0x08
    case SkipOffline => 0x04
  }

  /** Flag number i in declaration order is the bit 1 << (7 - i). */
  lemma FlagBits(i: nat)
    requires i < |Flags|
    ensures FlagByte(Flags[i]) as bv8 == (1 as bv8) << (7 - i)
  {
  }

  // ---------------------------------------------------------------------
  // Messages, frames and tags

  /** The websocket message types of the gorilla/websocket library. */
  const TextMessage: int := 1
  const BinaryMessage: int := 2

  /** wsMsg: one message for the writer. */
  datatype WsMsg = WsMsg(messageType: int, data: Bytes)

  /** The blank probe that sendKeepAlive queues. */
  const KeepAliveProbe: WsMsg := WsMsg(TextMessage, ToBytes("?,,"))

  /** A response channel, identified by the order in which it was made. */
  type Handle = nat

  /** An HMAC-SHA256 digest: at least the 32 bytes that a frame carries. */
  type Mac = s: Bytes | |s| >= 32 witness seq(32, _ => 0 as byte)

  /** The foreign primitives writeBinary calls: binary.Marshal, cbc.Encrypt
      (with the random IV it draws when given none) and HMAC-SHA256. */
  datatype Primitives = Primitives(
    marshal: Node -> Result<Bytes, string>,
    encrypt: (Option<Bytes>, Bytes) -> Result<Bytes, string>,
    hmacSha256: (Bytes, Bytes) -> Mac)

  /** The keys a logged-in session supplies; a nil EncKey is None. */
  datatype Session = Session(encKey: Option<Bytes>, macKey: Bytes)

  datatype SendError =
    | TagTooShort
    | JsonFailed(reason: string)
    | MarshalFailed(reason: string)
    | EncryptFailed(reason: string)

  /** The tag fmt.Sprintf("%d.--%d", ts, counter) that write and the profile
      picture upload give a request. */
  function MessageTag(ts: int, counter: int): (tag: string)
    ensures IsByteString(tag) && |tag| >= 5
    ensures ',' !in tag && tag[0] != '!'
  {
    Decimal(ts) + ".--" + Decimal(counter)
  }

  /** The tag determines both the timestamp and the counter it was made from. */
  lemma MessageTagInjective(ts1: int, counter1: int, ts2: int, counter2: int)
    requires MessageTag(ts1, counter1) == MessageTag(ts2, counter2)
    ensures ts1 == ts2 && counter1 == counter2
  {
    TagFields(ts1, counter1);
    TagFields(ts2, counter2);
    DecimalInjective(ts1, ts2);
    var r1, r2 := "--" + Decimal(counter1), "--" + Decimal(counter2);
    assert r1 == r2;
    assert r1[2..] == Decimal(counter1);
    assert r2[2..] == Decimal(counter2);
    DecimalInjective(counter1, counter2);
  }

  /** A tag splits at its first '.' into the timestamp and "--" followed by
      the counter. */
  lemma TagFields(ts: int, counter: int)
    ensures SplitN2(MessageTag(ts, counter), '.') == [Decimal(ts), "--" + Decimal(counter)]
  {
    DecimalLacks(ts, '.');
    assert MessageTag(ts, counter) == Decimal(ts) + ['.'] + ("--" + Decimal(counter));
    SplitN2Joined(Decimal(ts), '.', "--" + Decimal(counter));
  }

  lemma DecimalLacks(n: int, c: char)
    requires !IsDigit(c) && c != '-'
    ensures c !in Decimal(n)
  {
    var s := Decimal(n);
    forall i | 0 <= i < |s| ensures s[i] != c {
      assert IsDigit(s[i]) || s[i] == '-';
    }
  }

  /** Two sends in the same second get different tags, because the counter
      has moved on. */
  lemma ConsecutiveTagsDiffer(ts: int, counter: nat)
    ensures MessageTag(ts, counter) != MessageTag(ts, counter + 1)
  {
    if MessageTag(ts, counter) == MessageTag(ts, counter + 1) {
      MessageTagInjective(ts, counter, ts, counter + 1);
    }
  }

  /** write's frame: fmt.Sprintf("%s,%s", tag, payload) as bytes. */
  function TextFrame(tag: string, payload: Bytes): (frame: Bytes)
    requires IsByteString(tag)
    ensures |frame| == |tag| + 1 + |payload|
    ensures frame[|tag|] == 44 && frame[|tag| + 1..] == payload
  {
    ToBytes(tag + ",") + payload
  }

  /** The reader splits a text frame back into its tag and its payload. */
  lemma TextFrameSplits(tag: string, payload: Bytes)
    requires IsByteString(tag) && ',' !in tag
    ensures SplitN2(FromBytes(TextFrame(tag, payload)), ',') == [tag, FromBytes(payload)]
  {
    FromBytesConcat(ToBytes(tag + ","), payload);
    FromBytesOfToBytes(tag + ",");
    SplitN2Joined(tag, ',', FromBytes(payload));
  }

  /** writeBinary's frame: the tag, a comma, the metric and flag bytes, the
      first 32 bytes of the MAC, then the ciphertext. */
  function BinaryFrame(tag: string, metric: byte, flag: byte, mac: Mac, cipher: Bytes): (frame: Bytes)
    requires IsByteString(tag)
    ensures |frame| == |tag| + 35 + |cipher|
  {
    ToBytes(tag + ",") + [metric, flag] + mac[..32] + cipher
  }

  /** Where each part of a binary frame lies. */
  lemma BinaryFrameLayout(tag: string, metric: byte, flag: byte, mac: Mac, cipher: Bytes)
    requires IsByteString(tag)
    ensures var frame := BinaryFrame(tag, metric, flag, mac, cipher);
      && |frame| == |tag| + 35 + |cipher|
      && frame[..|tag|] == ToBytes(tag)
      && frame[|tag|] == ',' as byte
      && frame[|tag| + 1] == metric
      && frame[|tag| + 2] == flag
      && frame[|tag| + 3..|tag| + 35] == mac[..32]
      && frame[|tag| + 35..] == cipher
  {
    var frame := BinaryFrame(tag, metric, flag, mac, cipher);
    ToBytesConcat(tag, ",");
    assert frame == ToBytes(tag) + [',' as byte] + [metric, flag] + mac[..32] + cipher;
  }

  /** The reader finds the tag of a binary frame before its first comma. */
  lemma BinaryFrameTag(tag: string, metric: byte, flag: byte, mac: Mac, cipher: Bytes)
    requires IsByteString(tag) && ',' !in tag
    ensures SplitN2(FromBytes(BinaryFrame(tag, metric, flag, mac, cipher)), ',')[0] == tag
  {
    var body := [metric, flag] + mac[..32] + cipher;
    assert BinaryFrame(tag, metric, flag, mac, cipher) == TextFrame(tag, body);
    TextFrameSplits(tag, body);
  }

  /** Lines 316-336 of writeBinary: check the tag, marshal, encrypt, MAC and
      lay out the frame. */
  function SealedFrame(node: Node, metric: byte, flag: byte, tag: string, session: Session, prims: Primitives): (r: Result<Bytes, SendError>)
    requires IsByteString(tag)
    ensures |tag| < 2 ==> r == Failure(TagTooShort)
    ensures r.Success? ==> |tag| >= 2 && prims.marshal(node).Success?
    ensures r.Success? ==> |r.value| >= |tag| + 35
  {
    if |tag| < 2 then Failure(TagTooShort)
    else
      match prims.marshal(node)
      case Failure(e) => Failure(MarshalFailed(e))
      case Success(plain) =>
        match prims.encrypt(session.encKey, plain)
        case Failure(e) => Failure(EncryptFailed(e))
        case Success(cipher) =>
          Success(BinaryFrame(tag, metric, flag, prims.hmacSha256(session.macKey, cipher), cipher))
  }

  /** A sealed frame opens with its tag, followed by the metric and the flag
      bytes. */
  lemma SealedFrameHeader(node: Node, metric: byte, flag: byte, tag: string, session: Session, prims: Primitives)
    requires IsByteString(tag) && ',' !in tag
    requires SealedFrame(node, metric, flag, tag, session, prims).Success?
    ensures var frame := SealedFrame(node, metric, flag, tag, session, prims).value;
      && SplitN2(FromBytes(frame), ',')[0] == tag
      && frame[|tag| + 1] == metric
      && frame[|tag| + 2] == flag
  {
    var plain := prims.marshal(node).value;
    var cipher := prims.encrypt(session.encKey, plain).value;
    var mac := prims.hmacSha256(session.macKey, cipher);
    BinaryFrameTag(tag, metric, flag, mac, cipher);
    BinaryFrameLayout(tag, metric, flag, mac, cipher);
  }

  // ---------------------------------------------------------------------
  // Classifying an inbound frame

  /** What one read of the socket yields. */
  datatype Inbound = Frame(msgType: int, msg: Bytes) | ReadError(unexpected: bool)

  /** What one iteration of the reader does. */
  datatype ReadOutcome =
    | Stopped                                   // the loop ends
    | CloseReported                             // an unexpected close went to handle(); the loop goes on
    | KeepAlive(at: Time)                       // the server's timestamp was recorded
    | BadKeepAlive(err: NumError)               // an unreadable timestamp was logged
    | Delivered(tag: string, handle: Handle, payload: string)
    | ToDecrypt(payload: string)                // to decryptBinaryMessage, then dispatch
    | ToHandler(payload: string)                // to handle() as text
    | Dropped
    | Panicked                                  // an index out of range ends the program

  /** conn.go:383: time.Unix(msecs/1000, (msecs%1000)*1e6) with Go's
      truncating / and %. The result is exactly msecs milliseconds after the
      epoch. */
  function ServerTime(msecs: int): (t: Time)
    ensures 0 <= t.nsec < NanosPerSecond && t.nsec % 1_000_000 == 0
    ensures t.sec * 1000 + t.nsec / 1_000_000 == msecs
    ensures msecs >= 0 ==> t == Time(msecs / 1000, (msecs % 1000) * 1_000_000)
  {
    var q, r := Quo(msecs, 1000), Rem(msecs, 1000);
    var t := Unix(q, r * 1_000_000);
    assert t.sec * NanosPerSecond + t.nsec == q * NanosPerSecond + r * 1_000_000;
    if r >= 0 then
      assert t == Time(q, r * 1_000_000);
      t
    else
      assert t == Time(q - 1, r * 1_000_000 + NanosPerSecond);
      t
  }

  /** Whether a binary frame can go to decryption: the session and its EncKey
      are set. */
  predicate CanDecrypt(session: Option<Session>) {
    session.Some? && session.value.encKey.Some?
  }

  /** The decision the reader takes for one received frame (conn.go:374-409). */
  function Classify(msgType: int, text: string, listener: map<string, Handle>, canDecrypt: bool): (out: ReadOutcome)
    ensures out.Delivered? ==> out.tag in listener && out.handle == listener[out.tag] && out.payload != []
    ensures out.ToDecrypt? ==> msgType == BinaryMessage && canDecrypt
    ensures out.KeepAlive? || out.BadKeepAlive? ==> text != [] && text[0] == '!'
    ensures out != Stopped && out != CloseReported
  {
    var data := SplitN2(text, ',');
    if data[0] == [] then Panicked
    else if data[0][0] == '!' then
      match ParseInt64(data[0][1..])
      case Failure(e) => BadKeepAlive(e)
      case Success(msecs) => KeepAlive(ServerTime(msecs))
    else if |data| < 2 then Panicked
    else Correlate(msgType, data[0], data[1], listener, canDecrypt)
  }

  /** Where a frame with a tag and a payload goes (conn.go:387-409). */
  function Correlate(msgType: int, tag: string, payload: string, listener: map<string, Handle>, canDecrypt: bool): (out: ReadOutcome)
    ensures out.Delivered? <==> tag in listener && payload != []
    ensures out.Delivered? ==> out == Delivered(tag, listener[tag], payload)
    ensures out.ToDecrypt? ==> msgType == BinaryMessage && canDecrypt
    ensures out.Dropped? ==> payload == []
    ensures out.Delivered? || out.ToDecrypt? || out.ToHandler? || out.Dropped?
  {
    if tag in listener && payload != [] then Delivered(tag, listener[tag], payload)
    else if msgType == BinaryMessage && canDecrypt then ToDecrypt(payload)
    else if payload != [] then ToHandler(payload)
    else Dropped
  }

  /** The reader fails exactly on a frame whose first field is empty, or on a
      frame that is not a timestamp and has no comma. */
  lemma PanickedIff(msgType: int, text: string, listener: map<string, Handle>, canDecrypt: bool)
    ensures Classify(msgType, text, listener, canDecrypt) == Panicked
        <==> text == [] || text[0] == ',' || (text[0] != '!' && ',' !in text)
  {
    var data := SplitN2(text, ',');
    if text != [] && text[0] != ',' {
      assert data[0][0] == text[0];
    }
  }

  /** A timestamp frame "!<msecs>" records exactly the milliseconds it carries,
      whatever follows a comma, and delivers nothing. */
  lemma KeepAliveStamp(msgType: int, msecs: int, rest: string, listener: map<string, Handle>, canDecrypt: bool)
    requires MinInt64 <= msecs <= MaxInt64
    requires rest == [] || rest[0] == ','
    ensures var out := Classify(msgType, "!" + Decimal(msecs) + rest, listener, canDecrypt);
      && out == KeepAlive(ServerTime(msecs))
      && out.at.sec * 1000 + out.at.nsec / 1_000_000 == msecs
      && 0 <= out.at.nsec < NanosPerSecond
  {
    StampField(msecs, rest);
    var field := "!" + Decimal(msecs);
    assert field[0] == '!' && field[1..] == Decimal(msecs);
    ParseInt64OfDecimal(msecs);
  }

  /** The first field of a timestamp frame is "!" and the digits. */
  lemma StampField(msecs: int, rest: string)
    requires rest == [] || rest[0] == ','
    ensures SplitN2("!" + Decimal(msecs) + rest, ',')[0] == "!" + Decimal(msecs)
  {
    var stamp := "!" + Decimal(msecs);
    DecimalLacks(msecs, ',');
    assert ',' !in stamp;
    if rest == [] {
      assert stamp + rest == stamp;
    } else {
      assert stamp + rest == stamp + [','] + rest[1..];
      SplitN2Joined(stamp, ',', rest[1..]);
    }
  }

  /** The timestamp frame "!1529341084000" is the time 1529341084 s, 0 ns. */
  lemma KeepAliveExample(msgType: int, listener: map<string, Handle>, canDecrypt: bool)
    ensures Classify(msgType, "!" + "1529341084000", listener, canDecrypt) == KeepAlive(Time(1529341084, 0))
  {
    ExampleDecimal();
    assert "!" + Decimal(1529341084000) + "" == "!" + "1529341084000";
    KeepAliveStamp(msgType, 1529341084000, "", listener, canDecrypt);
    ExampleServerTime();
  }

  lemma ExampleServerTime()
    ensures ServerTime(1529341084000) == Time(1529341084, 0)
  {
  }

  lemma ExampleDecimal()
    ensures Decimal(1529341084000) == "1529341084000"
  {
    assert NatDecimal(15) == "15";
    assert NatDecimal(1529) == NatDecimal(152) + "9" == "1529";
    assert NatDecimal(152934) == NatDecimal(15293) + "4" == "152934";
    assert NatDecimal(15293410) == NatDecimal(1529341) + "0" == "15293410";
    assert NatDecimal(1529341084) == NatDecimal(152934108) + "4" == "1529341084";
    assert NatDecimal(152934108400) == NatDecimal(15293410840) + "0" == "152934108400";
    assert NatDecimal(1529341084000) == NatDecimal(152934108400) + "0";
  }

  /** A timestamp frame whose first field has a character that is not a digit
      after the '!' (a sign directly after it aside) is only logged. */
  lemma KeepAliveUnreadable(msgType: int, stamp: string, i: nat, listener: map<string, Handle>, canDecrypt: bool)
    requires ',' !in stamp && 0 < i < |stamp| && stamp[0] == '!'
    requires !IsDigit(stamp[i]) && (i == 1 ==> stamp[i] != '+' && stamp[i] != '-')
    ensures Classify(msgType, stamp, listener, canDecrypt).BadKeepAlive?
  {
    ParseInt64RejectsNonDigit(stamp[1..], i - 1);
  }

  /** For a frame that is not a timestamp and has a comma, the payload is
      delivered exactly when its tag is registered and the payload is not
      empty, and then to the handle registered for that tag. */
  lemma DeliveredIff(msgType: int, text: string, listener: map<string, Handle>, canDecrypt: bool)
    requires text != [] && text[0] != '!' && text[0] != ',' && ',' in text
    ensures var data := SplitN2(text, ',');
      var out := Classify(msgType, text, listener, canDecrypt);
      && (out.Delivered? <==> data[0] in listener && data[1] != [])
      && (out.Delivered? ==> out == Delivered(data[0], listener[data[0]], data[1]))
  {
    var data := SplitN2(text, ',');
    assert data[0][0] == text[0];
  }

  /** Frames not delivered: a binary frame with a usable session goes to
      decryption, other non-empty payloads to the handler, empty ones are
      dropped. */
  lemma UncorrelatedFrame(msgType: int, text: string, listener: map<string, Handle>, canDecrypt: bool)
    requires text != [] && text[0] != '!' && text[0] != ',' && ',' in text
    requires var data := SplitN2(text, ','); data[0] !in listener || data[1] == []
    ensures var data := SplitN2(text, ',');
      Classify(msgType, text, listener, canDecrypt)
        == if msgType == BinaryMessage && canDecrypt then ToDecrypt(data[1])
           else if data[1] != [] then ToHandler(data[1])
           else Dropped
  {
    var data := SplitN2(text, ',');
    assert data[0][0] == text[0];
  }

  /** Once a response is delivered and its tag removed, the same frame is not
      delivered again. */
  lemma DeliveredOnce(msgType: int, text: string, listener: map<string, Handle>, canDecrypt: bool)
    requires Classify(msgType, text, listener, canDecrypt).Delivered?
    ensures var tag := Classify(msgType, text, listener, canDecrypt).tag;
      !Classify(msgType, text, listener - {tag}, canDecrypt).Delivered?
  {
  }

  /** A response "<tag>,<payload>" to a registered tag made by MessageTag is
      delivered, with the rest of the frame as payload, to that tag's handle. */
  lemma ResponseDelivered(msgType: int, ts: int, counter: int, payload: string, listener: map<string, Handle>, canDecrypt: bool)
    requires MessageTag(ts, counter) in listener && payload != []
    ensures var tag := MessageTag(ts, counter);
      Classify(msgType, tag + "," + payload, listener, canDecrypt) == Delivered(tag, listener[tag], payload)
  {
    var tag := MessageTag(ts, counter);
    SplitN2Joined(tag, ',', payload);
  }

  /** A response "<tag>,<payload>" whose tag is not (or no longer) registered
      goes to the handler, unless it is a binary frame that can be decrypted. */
  lemma UnclaimedResponse(msgType: int, ts: int, counter: int, payload: string, listener: map<string, Handle>, canDecrypt: bool)
    requires MessageTag(ts, counter) !in listener && payload != []
    requires !(msgType == BinaryMessage && canDecrypt)
    ensures Classify(msgType, MessageTag(ts, counter) + "," + payload, listener, canDecrypt) == ToHandler(payload)
  {
    SplitN2Joined(MessageTag(ts, counter), ',', payload);
  }

  // ---------------------------------------------------------------------
  // Keepalive period

  const KeepAliveMinMs: int := 20000
  const KeepAliveMaxMs: int := 90000

  /** With the bounds the connection starts its keepalive loop with, the
      wait lies between 20 and 90 seconds. */
  lemma KeepAliveDefaultPeriod(draw: int)
    requires 0 <= draw < KeepAliveMaxMs - KeepAliveMinMs
    ensures 20000 <= KeepAliveInterval(KeepAliveMinMs, KeepAliveMaxMs, draw) < 90000
  {
  }

  /** rand.Intn(max - min) + min, with the random draw as a parameter. */
  function KeepAliveInterval(minIntervalMs: int, maxIntervalMs: int, draw: int): (interval: int)
    requires 0 <= draw < maxIntervalMs - minIntervalMs
    ensures minIntervalMs <= interval < maxIntervalMs
  {
    draw + minIntervalMs
  }

  // ---------------------------------------------------------------------
  // State

  /** ConnectionStatus: whether the client means to stay connected. */
  class ConnectionStatus {
    var connected: bool

    /** newConnectionStatus */
    constructor (initialStatus: bool)
      ensures connected == initialStatus
    {
      connected := initialStatus;
    }

    method Connected() returns (b: bool)
      ensures b == connected
    {
      b := connected;
    }

    method SetConnected(value: bool)
      modifies this
      ensures connected == value
    {
      connected := value;
    }
  }

  /** The connection: the socket's presence and health, the session keys, the
      registry of pending responses, the writer's queue, the message counter
      and the server's last keepalive timestamp. */
  class Conn {
    var hasSocket: bool                   // wsConn != nil
    var wsConnOK: bool
    var session: Option<Session>
    var listener: map<string, Handle>
    var nextHandle: Handle                // response channels made so far
    var outbound: seq<WsMsg>              // the messages waiting in writeChan
    var msgCount: nat
    var serverLastSeen: Time
    const status: ConnectionStatus

    /** Every registered handle has already been made, and the last-seen time
        is normalised. */
    ghost predicate Valid()
      reads this
    {
      && (forall tag | tag in listener :: listener[tag] < nextHandle)
      && 0 <= serverLastSeen.nsec < NanosPerSecond
    }

    /** The state right after a successful connect: an open socket, nothing
        registered, nothing queued. */
    constructor (session: Option<Session>)
      ensures Valid() && fresh(status) && status.connected
      ensures hasSocket && wsConnOK && this.session == session
      ensures listener == map[] && nextHandle == 0
      ensures outbound == [] && msgCount == 0 && serverLastSeen == ZeroTime
    {
      hasSocket, wsConnOK := true, true;
      this.session := session;
      listener, nextHandle := map[], 0;
      outbound, msgCount := [], 0;
      serverLastSeen := ZeroTime;
      status := new ConnectionStatus(true);
    }

    /** make(chan string, 1) and its registration under tag. */
    method Register(tag: string) returns (h: Handle)
      requires Valid()
      modifies this
      ensures Valid()
      ensures h == old(nextHandle) && h !in old(listener).Values
      ensures listener == old(listener)[tag := h] && nextHandle == old(nextHandle) + 1
      ensures hasSocket == old(hasSocket) && wsConnOK == old(wsConnOK) && session == old(session)
      ensures outbound == old(outbound) && msgCount == old(msgCount) && serverLastSeen == old(serverLastSeen)
    {
      h := nextHandle;
      nextHandle := nextHandle + 1;
      listener := listener[tag := h];
    }

    /** write: tag the JSON encoding of data with the time and the counter,
        register a channel for the tag, queue the frame and count it. */
    method Write<D>(data: D, jsonMarshal: D -> Result<Bytes, string>, ts: int) returns (r: Result<Handle, SendError>)
      requires Valid()
      modifies this
      ensures Valid()
      ensures jsonMarshal(data).Failure? ==> r == Failure(JsonFailed(jsonMarshal(data).error)) && unchanged(this)
      ensures jsonMarshal(data).Success? ==>
        var tag := MessageTag(ts, old(msgCount));
        && r == Success(old(nextHandle))
        && r.value !in old(listener).Values
        && listener == old(listener)[tag := r.value]
        && outbound == old(outbound) + [WsMsg(TextMessage, TextFrame(tag, jsonMarshal(data).value))]
        && msgCount == old(msgCount) + 1
        && nextHandle == old(nextHandle) + 1
        && hasSocket == old(hasSocket) && wsConnOK == old(wsConnOK)
        && session == old(session) && serverLastSeen == old(serverLastSeen)
    {
      var d := jsonMarshal(data);
      if d.Failure? {
        return Failure(JsonFailed(d.error));
      }
      var messageTag := MessageTag(ts, msgCount);
      var msg := TextFrame(messageTag, d.value);
      var ch := Register(messageTag);
      outbound := outbound + [WsMsg(TextMessage, msg)];
      msgCount := msgCount + 1;
      return Success(ch);
    }

    /** writeBinary: a tag shorter than two characters, or a failing marshal
        or encryption, is an error that changes nothing; otherwise the sealed
        frame is queued under a fresh channel for the tag and counted. */
    method WriteBinary(node: Node, metric: byte, flag: byte, tag: string, prims: Primitives) returns (r: Result<Handle, SendError>)
      requires Valid()
      requires session.Some? && IsByteString(tag)
      modifies this
      ensures Valid()
      ensures var sealed := SealedFrame(node, metric, flag, tag, old(session).value, prims);
        && (sealed.Failure? ==> r == Failure(sealed.error) && unchanged(this))
        && (sealed.Success? ==>
          && r == Success(old(nextHandle))
          && r.value !in old(listener).Values
          && listener == old(listener)[tag := r.value]
          && outbound == old(outbound) + [WsMsg(BinaryMessage, sealed.value)]
          && msgCount == old(msgCount) + 1
          && nextHandle == old(nextHandle) + 1
          && hasSocket == old(hasSocket) && wsConnOK == old(wsConnOK)
          && session == old(session) && serverLastSeen == old(serverLastSeen))
    {
      if |tag| < 2 {
        return Failure(TagTooShort);
      }
      var b := prims.marshal(node);
      if b.Failure? {
        return Failure(MarshalFailed(b.error));
      }
      var cipher := prims.encrypt(session.value.encKey, b.value);
      if cipher.Failure? {
        return Failure(EncryptFailed(cipher.error));
      }
      var hash := prims.hmacSha256(session.value.macKey, cipher.value);
      var data := ToBytes(tag + ",");
      data := data + [metric, flag];
      data := data + hash[..32];
      data := data + cipher.value;
      var ch := Register(tag);
      outbound := outbound + [WsMsg(BinaryMessage, data)];
      msgCount := msgCount + 1;
      return Success(ch);
    }

    /** One iteration of readPump: stop when the connection is closed; read
        from a socket that reconnect has already dropped and the nil
        connection panics; on a read error mark the socket unusable and either
        report the close and go on, or end the loop; otherwise handle the
        frame. */
    method ReadStep(ev: Inbound) returns (out: ReadOutcome)
      requires Valid()
      modifies this, status
      ensures Valid()
      ensures !old(status.connected) ==> out == Stopped && unchanged(this) && unchanged(status)
      ensures old(status.connected) && !old(hasSocket) ==> out == Panicked && unchanged(this) && unchanged(status)
      ensures old(status.connected) && old(hasSocket) && ev.ReadError? ==>
        && !wsConnOK
        && (if ev.unexpected then out == CloseReported && status.connected
            else out == Stopped && !status.connected)
        && listener == old(listener) && serverLastSeen == old(serverLastSeen)
      ensures old(status.connected) && old(hasSocket) && ev.Frame? ==>
        && out == Classify(ev.msgType, FromBytes(ev.msg), old(listener), CanDecrypt(old(session)))
        && wsConnOK && status.connected
        && listener == (if out.Delivered? then old(listener) - {out.tag} else old(listener))
        && serverLastSeen == (if out.KeepAlive? then out.at else old(serverLastSeen))
      ensures hasSocket == old(hasSocket) && session == old(session) && outbound == old(outbound)
      ensures msgCount == old(msgCount) && nextHandle == old(nextHandle)
    {
      var connected := status.Connected();
      if !connected {
        return Stopped;
      }
      if !hasSocket {
        // ReadMessage on the nil connection
        return Panicked;
      }
      match ev
      case ReadError(unexpected) =>
        wsConnOK := false;
        if unexpected {
          // handle(err), sleep a second, read again
          return CloseReported;
        }
        status.SetConnected(false);
        return Stopped;
      case Frame(msgType, msg) =>
        out := ReadFrame(msgType, msg);
    }

    /** The part of a readPump iteration after a successful read: mark the
        socket usable, then record a keepalive time or deliver a response
        (removing its tag) as the frame's classification says. */
    method ReadFrame(msgType: int, msg: Bytes) returns (out: ReadOutcome)
      requires Valid()
      modifies this
      ensures Valid()
      ensures out == Classify(msgType, FromBytes(msg), old(listener), CanDecrypt(old(session)))
      ensures wsConnOK
      ensures listener == (if out.Delivered? then old(listener) - {out.tag} else old(listener))
      ensures serverLastSeen == (if out.KeepAlive? then out.at else old(serverLastSeen))
      ensures hasSocket == old(hasSocket) && session == old(session) && outbound == old(outbound)
      ensures msgCount == old(msgCount) && nextHandle == old(nextHandle)
    {
      wsConnOK := true;
      var data := SplitN2(FromBytes(msg), ',');
      if data[0] == [] {
        return Panicked;
      }
      if data[0][0] == '!' {
        var msecs := ParseInt64(data[0][1..]);
        if msecs.Failure? {
          return BadKeepAlive(msecs.error);
        }
        serverLastSeen := ServerTime(msecs.value);
        return KeepAlive(serverLastSeen);
      }
      if |data| < 2 {
        return Panicked;
      }
      out := Route(msgType, data[0], data[1]);
    }

    /** The end of a readPump iteration for a frame with a tag and a payload:
        deliver a non-empty payload to a registered tag and remove the tag, or
        pass the frame on. */
    method Route(msgType: int, tag: string, payload: string) returns (out: ReadOutcome)
      requires Valid()
      modifies this
      ensures Valid()
      ensures out == Correlate(msgType, tag, payload, old(listener), CanDecrypt(old(session)))
      ensures listener == (if out.Delivered? then old(listener) - {tag} else old(listener))
      ensures out.Delivered? ==> out.tag == tag
      ensures hasSocket == old(hasSocket) && wsConnOK == old(wsConnOK) && session == old(session)
      ensures outbound == old(outbound) && msgCount == old(msgCount) && nextHandle == old(nextHandle)
      ensures serverLastSeen == old(serverLastSeen)
    {
      var hasListener := tag in listener;
      if hasListener && |payload| > 0 {
        var ch := listener[tag];
        listener := listener - {tag};
        return Delivered(tag, ch, payload);
      } else if msgType == BinaryMessage && session.Some? && session.value.encKey.Some? {
        return ToDecrypt(payload);
      } else if |payload| > 0 {
        return ToHandler(payload);
      }
      return Dropped;
    }

    /** sendKeepAlive: mark the socket usable and queue the blank probe. */
    method SendKeepAlive()
      requires Valid()
      modifies this
      ensures Valid()
      ensures wsConnOK && outbound == old(outbound) + [KeepAliveProbe]
      ensures hasSocket == old(hasSocket) && session == old(session) && listener == old(listener)
      ensures nextHandle == old(nextHandle) && msgCount == old(msgCount) && serverLastSeen == old(serverLastSeen)
    {
      wsConnOK := true;
      outbound := outbound + [KeepAliveProbe];
    }

    /** isConnected: false without a socket, true when the socket is marked
        usable; otherwise a probe is queued, the socket marked usable, and the
        answer is still false. */
    method IsConnected() returns (b: bool)
      requires Valid()
      modifies this
      ensures Valid()
      ensures b <==> old(hasSocket) && old(wsConnOK)
      ensures old(hasSocket) && !old(wsConnOK) ==> wsConnOK && outbound == old(outbound) + [KeepAliveProbe]
      ensures !(old(hasSocket) && !old(wsConnOK)) ==> wsConnOK == old(wsConnOK) && outbound == old(outbound)
      ensures hasSocket == old(hasSocket) && session == old(session) && listener == old(listener)
      ensures nextHandle == old(nextHandle) && msgCount == old(msgCount) && serverLastSeen == old(serverLastSeen)
    {
      if !hasSocket {
        return false;
      }
      if wsConnOK {
        return true;
      }
      SendKeepAlive();
      return false;
    }

    /** What connect leaves behind: on a successful dial, a socket marked
        usable; on a failed one, an error and no change. */
    method Connect(dialOk: bool) returns (err: Option<string>)
      requires Valid()
      modifies this
      ensures Valid()
      ensures dialOk ==> err == None && hasSocket && wsConnOK
      ensures !dialOk ==> err.Some? && hasSocket == old(hasSocket) && wsConnOK == old(wsConnOK)
      ensures session == old(session) && listener == old(listener) && outbound == old(outbound)
      ensures nextHandle == old(nextHandle) && msgCount == old(msgCount) && serverLastSeen == old(serverLastSeen)
    {
      if !dialOk {
        return Some("couldn't dial whatsapp web websocket");
      }
      hasSocket, wsConnOK := true, true;
      return None;
    }

    /** One iteration of writePump: take the next queued message; stop if the
        connection is closed; wait until isConnected holds, dialling when
        there is no socket (dials are the outcomes of the successive dials);
        then write the message, and on a failed write mark the socket unusable
        and queue the message again. */
    method WritePumpStep(dials: seq<bool>, writeOk: bool) returns (out: PumpOutcome)
      requires Valid()
      modifies this
      ensures Valid()
      ensures old(outbound) == [] ==> out == Idle && unchanged(this)
      ensures old(outbound) != [] && !status.connected ==>
        out == Halted(old(outbound)[0]) && outbound == old(outbound)[1..]
        && hasSocket == old(hasSocket) && wsConnOK == old(wsConnOK)
      ensures old(outbound) != [] && status.connected ==>
        var msg := old(outbound)[0];
        var probe := if old(hasSocket) && !old(wsConnOK) then [KeepAliveProbe] else [];
        && (out.Held? <==> !old(hasSocket) && true !in dials)
        && (out.Held? ==> out.msg == msg && outbound == old(outbound) && !hasSocket && wsConnOK == old(wsConnOK))
        && (!out.Held? ==>
          && out == (if writeOk then Sent(msg) else Requeued(msg))
          && hasSocket && wsConnOK == writeOk
          && outbound == old(outbound)[1..] + probe + (if writeOk then [] else [msg]))
      ensures session == old(session) && listener == old(listener) && nextHandle == old(nextHandle)
      ensures msgCount == old(msgCount) && serverLastSeen == old(serverLastSeen)
    {
      if outbound == [] {
        return Idle;
      }
      var msg := outbound[0];
      outbound := outbound[1..];
      var connected := status.Connected();
      if !connected {
        return Halted(msg);
      }
      ghost var rest := outbound;
      ghost var probe := if old(hasSocket) && !old(wsConnOK) then [KeepAliveProbe] else [];
      var k := 0;
      var ok := IsConnected();
      while !ok
        invariant Valid()
        invariant 0 <= k <= |dials|
        invariant outbound == rest + probe
        invariant ok ==> hasSocket && wsConnOK
        invariant hasSocket ==> wsConnOK
        invariant old(hasSocket) ==> hasSocket
        invariant hasSocket ==> old(hasSocket) || true in dials[..k]
        invariant !hasSocket ==> true !in dials[..k] && wsConnOK == old(wsConnOK)
        invariant session == old(session) && listener == old(listener) && nextHandle == old(nextHandle)
        invariant msgCount == old(msgCount) && serverLastSeen == old(serverLastSeen)
        decreases |dials| - k, if hasSocket then 0 else 1, if ok then 0 else 1
      {
        if !hasSocket {
          if k == |dials| {
            // still dialling: the writer holds on to the message
            assert dials[..k] == dials;
            outbound := [msg] + outbound;
            assert outbound == old(outbound);
            return Held(msg);
          }
          var _ := Connect(dials[k]);
          assert dials[..k + 1] == dials[..k] + [dials[k]];
          k := k + 1;
        }
        // when this check still fails, the writer sleeps before the next round
        var _ := IsConnected();
        ok := IsConnected();
      }
      if writeOk {
        return Sent(msg);
      }
      wsConnOK := false;
      outbound := outbound + [msg];
      return Requeued(msg);
    }

    /** One iteration of keepAlive: stop when the connection is closed,
        otherwise send the probe and wait between the two bounds. */
    method KeepAliveStep(minIntervalMs: int, maxIntervalMs: int, draw: int) returns (wait: Option<int>)
      requires Valid()
      requires 0 <= draw < maxIntervalMs - minIntervalMs
      modifies this
      ensures Valid()
      ensures !status.connected ==> wait == None && unchanged(this)
      ensures status.connected ==>
        && wait.Some? && minIntervalMs <= wait.value < maxIntervalMs
        && wsConnOK && outbound == old(outbound) + [KeepAliveProbe]
      ensures hasSocket == old(hasSocket) && session == old(session) && listener == old(listener)
      ensures nextHandle == old(nextHandle) && msgCount == old(msgCount) && serverLastSeen == old(serverLastSeen)
    {
      var connected := status.Connected();
      if !connected {
        return None;
      }
      SendKeepAlive();
      return Some(KeepAliveInterval(minIntervalMs, maxIntervalMs, draw));
    }
  }

  /** What one iteration of the writer did with the message it took. */
  datatype PumpOutcome =
    | Idle                    // nothing queued: the writer waits
    | Halted(msg: WsMsg)      // the connection is closed: the loop ends
    | Held(msg: WsMsg)        // no socket yet: the writer keeps the message
    | Sent(msg: WsMsg)
    | Requeued(msg: WsMsg)    // the write failed: the message is queued again

  /** A request written on a new connection and then answered: the answer
      reaches the request's channel, and a repeated answer, no longer
      correlated, goes to the handler. */
  method RequestResponse(ts: int, json: Bytes, answer: string) returns (first: ReadOutcome, second: ReadOutcome)
    requires IsByteString(answer) && answer != []
    ensures first == Delivered(MessageTag(ts, 0), 0, answer)
    ensures second == ToHandler(answer)
  {
    var conn := new Conn(None);
    var r := conn.Write(json, (d: Bytes) => Success(d), ts);
    var tag := MessageTag(ts, 0);
    assert conn.listener == map[tag := r.value];
    ToBytesConcat(tag + ",", answer);
    var reply := ToBytes(tag + "," + answer);
    FromBytesOfToBytes(tag + "," + answer);
    ResponseDelivered(TextMessage, ts, 0, answer, conn.listener, false);
    first := conn.ReadStep(Frame(TextMessage, reply));
    assert conn.listener == map[] && conn.session == None;
    UnclaimedResponse(TextMessage, ts, 0, answer, conn.listener, false);
    second := conn.ReadStep(Frame(TextMessage, reply));
  }
}
