/** The profile picture upload (profile.go): a request tag, a fixed tree of
    nodes around the two pictures, and its hand-over to writeBinary with the
    profile metric and the flags ignore and expires. */
module ProfilePic {
  import opened Wrappers
  import opened GoStd
  import opened Binary
  import opened Connection

  /** The flag byte of the upload: 136. */
  const UploadFlag: byte := 136

  /** The upload's flag byte sets exactly the ignore and expires bits. */
  lemma UploadFlagBits()
    ensures UploadFlag as bv8 == FlagByte(Ignore) as bv8 | FlagByte(Expires) as bv8
    ensures forall f | f in Flags && f != Ignore && f != Expires :: UploadFlag as bv8 & FlagByte(f) as bv8 == 0
  {
  }

  /** createUploadProfilePicTag: the time in seconds, ".--", then nineteen
      times the message counter, multiplied in Go's 64-bit int. */
  function UploadProfilePicTag(now: int, msgCount: int): (tag: string)
    ensures IsByteString(tag) && ',' !in tag
    ensures |tag| >= 5
  {
    MessageTag(now, WrapInt64(msgCount * 19))
  }

  /** The upload tag is the tag write gives the counter 19 * msgCount (as Go's
      int holds it) in the same second, and differs from the tag of every
      other counter. */
  lemma UploadTagVersusWriteTags(now: int, msgCount: int, counter: int)
    ensures UploadProfilePicTag(now, msgCount) == MessageTag(now, counter) <==> counter == WrapInt64(19 * msgCount)
  {
    if UploadProfilePicTag(now, msgCount) == MessageTag(now, counter) {
      MessageTagInjective(now, WrapInt64(msgCount * 19), now, counter);
    }
  }

  /** 19 is odd, so multiplying by it modulo 2^64 loses nothing: two int64
      counters with the same wrapped product are equal. */
  lemma Times19Injective(a: int, b: int)
    requires MinInt64 <= a <= MaxInt64 && MinInt64 <= b <= MaxInt64
    requires WrapInt64(19 * a) == WrapInt64(19 * b)
    ensures a == b
  {
    var w := WrapInt64(19 * a);
    var p, q := (19 * a - w) / TwoTo64, (19 * b - w) / TwoTo64;
    assert 19 * a - w == p * TwoTo64;
    assert 19 * b - w == q * TwoTo64;
    var d, k := a - b, p - q;
    assert 19 * d == k * TwoTo64;
    // the inverse of 19 modulo 2^64
    var inverse := 9708812670373448219;
    assert 19 * inverse == 1 + 10 * TwoTo64;
    var c := inverse * k - 10 * d;
    calc {
      c * TwoTo64;
      inverse * (k * TwoTo64) - 10 * d * TwoTo64;
      inverse * (19 * d) - 10 * d * TwoTo64;
      d * (19 * inverse) - d * (10 * TwoTo64);
      d * (1 + 10 * TwoTo64) - d * (10 * TwoTo64);
      d;
    }
  }

  /** Upload tags made at different times or with different counters differ. */
  lemma UploadTagInjective(now1: int, msgCount1: int, now2: int, msgCount2: int)
    requires MinInt64 <= msgCount1 <= MaxInt64 && MinInt64 <= msgCount2 <= MaxInt64
    requires UploadProfilePicTag(now1, msgCount1) == UploadProfilePicTag(now2, msgCount2)
    ensures now1 == now2 && msgCount1 == msgCount2
  {
    MessageTagInjective(now1, WrapInt64(msgCount1 * 19), now2, WrapInt64(msgCount2 * 19));
    Times19Injective(msgCount1, msgCount2);
  }

  /** createUploadProfilePicNode: an "action" node of type "set" whose epoch is
      the counter, holding one "picture" node that names the tag and the
      account and carries the image and the preview, in that order, with no
      attributes of their own. */
  function UploadProfilePicNode(msgCount: int, tag: string, wid: string, image: Bytes, preview: Bytes): (n: Node)
    ensures n.description == "action" && n.attributes.Some?
    ensures n.attributes.value.Keys == {"type", "epoch"}
    ensures Attr(n, "type") == "set" && Attr(n, "epoch") == Decimal(msgCount)
    ensures n.content.List? && |n.content.items| == 1 && n.content.items[0].NodeValue?
    ensures var picture := n.content.items[0].node;
      && picture.description == "picture" && picture.attributes.Some?
      && picture.attributes.value.Keys == {"id", "jid", "type"}
      && Attr(picture, "id") == tag && Attr(picture, "jid") == wid && Attr(picture, "type") == "set"
      && picture.content.Nodes? && |picture.content.nodes| == 2
    ensures var pictures := n.content.items[0].node.content.nodes;
      && pictures[0] == Node("image", None, Raw(image))
      && pictures[1] == Node("preview", None, Raw(preview))
  {
    Node("action", Some(map["type" := "set", "epoch" := Decimal(msgCount)]),
      List([NodeValue(
        Node("picture", Some(map["id" := tag, "jid" := wid, "type" := "set"]),
          Nodes([Node("image", None, Raw(image)), Node("preview", None, Raw(preview))])))]))
  }

  /** The epoch attribute reads back as the counter it was written from. */
  lemma UploadEpochReadsBack(msgCount: int, tag: string, wid: string, image: Bytes, preview: Bytes)
    requires MinInt64 <= msgCount <= MaxInt64
    ensures ParseInt64(Attr(UploadProfilePicNode(msgCount, tag, wid, image, preview), "epoch")) == Success(msgCount)
  {
    ParseInt64OfDecimal(msgCount);
  }

  /** The node determines everything it was built from. */
  lemma UploadNodeInjective(
    m1: int, tag1: string, wid1: string, image1: Bytes, preview1: Bytes,
    m2: int, tag2: string, wid2: string, image2: Bytes, preview2: Bytes)
    requires UploadProfilePicNode(m1, tag1, wid1, image1, preview1) == UploadProfilePicNode(m2, tag2, wid2, image2, preview2)
    ensures m1 == m2 && tag1 == tag2 && wid1 == wid2 && image1 == image2 && preview1 == preview2
  {
    var n1 := UploadProfilePicNode(m1, tag1, wid1, image1, preview1);
    assert Attr(n1, "epoch") == Decimal(m1) == Decimal(m2);
    DecimalInjective(m1, m2);
  }

  /** UploadProfilePic: build the tag and the node from the counter it is
      given and send them with writeBinary under the profile metric and flag
      136. The tag is never too short, so the only errors are those of the
      marshal and the encryption; on success the frame is queued under the
      tag that the picture node names. */
  method UploadProfilePic(conn: Conn, now: int, msgCount: int, wid: string, image: Bytes, preview: Bytes, prims: Primitives)
    returns (r: Result<Handle, SendError>)
    requires conn.Valid() && conn.session.Some?
    modifies conn
    ensures conn.Valid()
    ensures r != Failure(TagTooShort)
    ensures var tag := UploadProfilePicTag(now, msgCount);
      var node := UploadProfilePicNode(msgCount, tag, wid, image, preview);
      var sealed := SealedFrame(node, MetricByte(Profile), UploadFlag, tag, old(conn.session).value, prims);
      && (sealed.Failure? ==> r == Failure(sealed.error) && unchanged(conn))
      && (sealed.Success? ==>
        && r == Success(old(conn.nextHandle))
        && r.value !in old(conn.listener).Values
        && conn.listener == old(conn.listener)[tag := r.value]
        && conn.outbound == old(conn.outbound) + [WsMsg(BinaryMessage, sealed.value)]
        && conn.msgCount == old(conn.msgCount) + 1
        && conn.nextHandle == old(conn.nextHandle) + 1
        && conn.hasSocket == old(conn.hasSocket) && conn.wsConnOK == old(conn.wsConnOK)
        && conn.session == old(conn.session) && conn.serverLastSeen == old(conn.serverLastSeen))
  {
    var t := UploadProfilePicTag(now, msgCount);
    var n := UploadProfilePicNode(msgCount, t, wid, image, preview);
    r := conn.WriteBinary(n, MetricByte(Profile), UploadFlag, t, prims);
  }

  /** (*Conn).UploadProfilePic: the package function with the connection's
      own counter; wid stands for the account's Info.Wid. */
  method ConnUploadProfilePic(conn: Conn, now: int, wid: string, image: Bytes, preview: Bytes, prims: Primitives)
    returns (r: Result<Handle, SendError>)
    requires conn.Valid() && conn.session.Some?
    modifies conn
    ensures conn.Valid()
    ensures r != Failure(TagTooShort)
    ensures var tag := UploadProfilePicTag(now, old(conn.msgCount));
      var node := UploadProfilePicNode(old(conn.msgCount), tag, wid, image, preview);
      var sealed := SealedFrame(node, MetricByte(Profile), UploadFlag, tag, old(conn.session).value, prims);
      && (sealed.Failure? ==> r == Failure(sealed.error) && unchanged(conn))
      && (sealed.Success? ==>
        && r == Success(old(conn.nextHandle))
        && r.value !in old(conn.listener).Values
        && conn.listener == old(conn.listener)[tag := r.value]
        && conn.outbound == old(conn.outbound) + [WsMsg(BinaryMessage, sealed.value)]
        && conn.msgCount == old(conn.msgCount) + 1
        && conn.nextHandle == old(conn.nextHandle) + 1
        && conn.hasSocket == old(conn.hasSocket) && conn.wsConnOK == old(conn.wsConnOK)
        && conn.session == old(conn.session) && conn.serverLastSeen == old(conn.serverLastSeen))
  {
    r := UploadProfilePic(conn, now, conn.msgCount, wid, image, preview, prims);
  }

  /** The upload frame opens with the tag that the picture node names, then
      the profile metric 27 and the flag byte 136. */
  lemma UploadFrameLayout(now: int, msgCount: int, wid: string, image: Bytes, preview: Bytes, session: Session, prims: Primitives)
    requires var tag := UploadProfilePicTag(now, msgCount);
      SealedFrame(UploadProfilePicNode(msgCount, tag, wid, image, preview), MetricByte(Profile), UploadFlag, tag, session, prims).Success?
    ensures var tag := UploadProfilePicTag(now, msgCount);
      var node := UploadProfilePicNode(msgCount, tag, wid, image, preview);
      var frame := SealedFrame(node, MetricByte(Profile), UploadFlag, tag, session, prims).value;
      && SplitN2(FromBytes(frame), ',')[0] == Attr(node.content.items[0].node, "id")
      && frame[|tag| + 1] == 27
      && frame[|tag| + 2] == 136
  {
    var tag := UploadProfilePicTag(now, msgCount);
    var node := UploadProfilePicNode(msgCount, tag, wid, image, preview);
    assert MetricByte(Profile) == 27;
    assert Attr(node.content.items[0].node, "id") == tag;
    SealedFrameHeader(node, MetricByte(Profile), UploadFlag, tag, session, prims);
  }
}
