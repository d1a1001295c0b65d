/** Relaying: what core/p2ptunnel.go writes when a message goes through a relay, what the relay's
    readLoop and P2PNetwork.relay make of it, and what the far end reads. */
module Relay {
  import opened Basics
  import opened Framing

  const MsgP2P: Uint16 := 4
  const MsgRelayData: Uint16 := 10
  const MsgNodeDataMP: Uint16 := 15
  const RelayHeaderSize := 8

  // ----- writers; a tunnel id of 0 means no relay

  function Envelope(rtid: Uint64, m: Msg): Msg {
    Msg(m.mainType, MsgRelayData, Le(rtid, 8) + Encode(m))
  }

  /** The bytes P2PTunnel.WriteBytes puts on its connection. */
  function WireBytes(rtid: Uint64, mainType: Uint16, subType: Uint16, data: Bytes): Bytes {
    if rtid == 0 then Encode(Msg(mainType, subType, data))
    else Encode(Msg(mainType, MsgRelayData, Le(rtid, 8) + EncodeHeader(mainType, subType, |data|) + data))
  }

  /** P2PTunnel.WriteMessage; `json` is None when the request cannot be marshalled. The relayed branch
      ignores that error and sends the tunnel id alone. */
  function WireMessage(rtid: Uint64, mainType: Uint16, subType: Uint16, json: Option<Bytes>): Bytes {
    if rtid == 0 then
      if json.None? then [] else Encode(Msg(mainType, subType, json.value))
    else
      var msg := if json.None? then [] else Encode(Msg(mainType, subType, json.value));
      Encode(Msg(mainType, MsgRelayData, Le(rtid, 8) + msg))
  }

  function WireMessageWithAppID(appID: Uint64, rtid: Uint64, mainType: Uint16, subType: Uint16,
                                json: Option<Bytes>): Bytes {
    if json.None? then []
    else
      var data := Le(appID, 8) + json.value;
      if rtid == 0 then Encode(Msg(mainType, subType, data))
      else Encode(Msg(mainType, MsgRelayData, Le(rtid, 8) + Encode(Msg(mainType, subType, data))))
  }

  /** asyncWriteNodeData, with the cached relay head of `rtid` when there is one. */
  function WireNodeData(id: Uint64, sequence: Uint64, packet: Bytes, rtid: Option<Uint64>): Bytes {
    var relayHead := if rtid.None? then [] else
      EncodeHeader(MsgP2P, MsgRelayData, HeaderSize + |Le(rtid.value, 8)| + 16 + |packet|) + Le(rtid.value, 8);
    relayHead + EncodeHeader(MsgP2P, MsgNodeDataMP, 16 + |packet|) + Le(id, 8) + Le(sequence, 8) + packet
  }

  function NodeDataMsg(id: Uint64, sequence: Uint64, packet: Bytes): Msg {
    Msg(MsgP2P, MsgNodeDataMP, Le(id, 8) + Le(sequence, 8) + packet)
  }

  // ----- the relay

  /** One turn of the relay's readLoop: the tunnel and the raw bytes handed to P2PNetwork.relay. */
  function Forward(r: ReadResult): Option<(nat, Bytes)> {
    if r.Frame? && r.head.mainType == MsgP2P && r.head.subType == MsgRelayData && |r.body| >= RelayHeaderSize
    then Some((FromLe(r.body[..8]), r.body[RelayHeaderSize..])) else None
  }

  /** Everything the relay writes to tunnel `rtid` after reading `frames`. */
  function ForwardAll(frames: seq<ReadResult>, rtid: nat): Bytes {
    if frames == [] then []
    else
      var f := Forward(frames[0]);
      (if f.Some? && f.value.0 == rtid then f.value.1 else []) + ForwardAll(frames[1..], rtid)
  }

  function AfterRelay(wire: Bytes, rtid: nat): Bytes {
    ForwardAll(ReadAll(wire).0, rtid)
  }

  // ----- the far end

  /** handleNodeDataMP: sender, sequence number and packet. */
  function NodeData(r: ReadResult): Option<(nat, nat, Bytes)> {
    if r.Frame? && r.head.mainType == MsgP2P && r.head.subType == MsgNodeDataMP
       && r.head.dataLen >= 16 && |r.body| == r.head.dataLen
    then Some((FromLe(r.body[..8]), FromLe(r.body[8..16]), r.body[16..])) else None
  }

  // ----- laws

  /** The relay extracts the tunnel id and the enclosed frame exactly when the envelope is a P2P message
      whose 16 bytes of overhead still fit the 32-bit length. */
  lemma EnvelopeOpens(rtid: Uint64, m: Msg, rest: Bytes)
    ensures var r := ReadFrame(Encode(Envelope(rtid, m)) + rest);
            (r.Frame? && r.rest == rest && Forward(r) == Some((rtid, Encode(m)))) <==>
            m.mainType == MsgP2P && 16 + |m.data| < 0x1_0000_0000
  {
    var e := Envelope(rtid, m);
    var r := ReadFrame(Encode(e) + rest);
    FrameRoundTrip(e, rest);
    EnvelopeBody(rtid, m);
    if m.mainType == MsgP2P && |e.data| >= 0x1_0000_0000 && r.Frame? {
      EnvelopeCut(e, rest);
    }
    if m.mainType != MsgP2P {
      HeaderRoundTrip(e.mainType, e.subType, |e.data|);
      assert (Encode(e) + rest)[..HeaderSize] == EncodeHeader(e.mainType, e.subType, |e.data|);
    }
  }

  /** A length that does not fit is read back as a shorter one. */
  lemma EnvelopeCut(m: Msg, rest: Bytes)
    requires |m.data| >= 0x1_0000_0000 && ReadFrame(Encode(m) + rest).Frame?
    ensures |ReadFrame(Encode(m) + rest).body| < |m.data|
  {
    HeaderRoundTrip(m.mainType, m.subType, |m.data|);
    assert (Encode(m) + rest)[..HeaderSize] == EncodeHeader(m.mainType, m.subType, |m.data|);
  }

  lemma EnvelopeBody(rtid: Uint64, m: Msg)
    ensures var data := Envelope(rtid, m).data;
            |data| == 16 + |m.data| && FromLe(data[..8]) == rtid && data[8..] == Encode(m)
  {
    Le64(rtid);
    var data := Envelope(rtid, m).data;
    assert data[..8] == Le(rtid, 8) && data[8..] == Encode(m);
  }

  predicate Relayable(m: Msg) {
    m.mainType == MsgP2P && 16 + |m.data| < 0x1_0000_0000
  }

  lemma ForwardEnvelope(rtid: Uint64, m: Msg)
    requires Relayable(m)
    ensures Forward(Seen(Envelope(rtid, m), [])) == Some((rtid, Encode(m)))
  {
    EnvelopeBody(rtid, m);
  }

  /** The relay ignores an envelope that is too short for a tunnel id. */
  lemma ShortEnvelope(m: Msg, rest: Bytes)
    requires Fits(m) && |m.data| < 8
    ensures Forward(ReadFrame(Encode(m) + rest)) == None
  {
    FrameRoundTrip(m, rest);
  }

  /** What one side writes to the relay: a frame for the relay itself, or a message for some tunnel. */
  datatype Traffic = Own(m: Msg) | Via(rtid: Uint64, m: Msg)

  predicate Proper(t: Traffic) {
    match t
    case Own(m) => Fits(m) && !(m.mainType == MsgP2P && m.subType == MsgRelayData && |m.data| >= RelayHeaderSize)
    case Via(_, m) => Relayable(m)
  }

  function Framed(t: Traffic): Msg {
    match t
    case Own(m) => m
    case Via(rtid, m) => Envelope(rtid, m)
  }

  function Wire(ts: seq<Traffic>): seq<Msg> {
    seq(|ts|, i requires 0 <= i < |ts| => Framed(ts[i]))
  }

  /** The messages for tunnel `rtid`, in the order they were written. */
  function SentTo(ts: seq<Traffic>, rtid: nat): seq<Msg> {
    if ts == [] then []
    else (if ts[0].Via? && ts[0].rtid == rtid then [ts[0].m] else []) + SentTo(ts[1..], rtid)
  }

  lemma ForwardOne(t: Traffic)
    requires Proper(t)
    ensures Forward(Seen(Framed(t), [])) == if t.Own? then None else Some((t.rtid, Encode(t.m)))
  {
    if t.Via? {
      ForwardEnvelope(t.rtid, t.m);
    }
  }

  lemma {:induction false} SentRelayable(ts: seq<Traffic>, rtid: nat)
    requires forall t :: t in ts ==> Proper(t)
    ensures forall m :: m in SentTo(ts, rtid) ==> Relayable(m)
  {
    if ts == [] {
    } else {
      SentRelayable(ts[1..], rtid);
      assert Proper(ts[0]);
    }
  }

  lemma SeenCons(ts: seq<Traffic>)
    requires ts != []
    ensures SeenAll(Wire(ts)) == [Seen(Framed(ts[0]), [])] + SeenAll(Wire(ts[1..]))
  {}

  lemma ForwardCons(r: ReadResult, rs: seq<ReadResult>, rtid: nat)
    ensures ForwardAll([r] + rs, rtid) ==
            (if Forward(r).Some? && Forward(r).value.0 == rtid then Forward(r).value.1 else []) + ForwardAll(rs, rtid)
  {
    assert ([r] + rs)[1..] == rs;
  }

  lemma EncodeCons(m: Msg, ms: seq<Msg>)
    ensures EncodeAll([m] + ms) == Encode(m) + EncodeAll(ms)
  {
    assert ([m] + ms)[1..] == ms;
  }

  lemma {:induction false} ForwardTraffic(ts: seq<Traffic>, rtid: nat)
    requires forall t :: t in ts ==> Proper(t)
    ensures ForwardAll(SeenAll(Wire(ts)), rtid) == EncodeAll(SentTo(ts, rtid))
  {
    if ts == [] {
    } else {
      hide Forward, Encode, Framed, Proper, Seen, ForwardAll, EncodeAll, SeenAll, Wire;
      ForwardTraffic(ts[1..], rtid);
      ForwardOne(ts[0]);
      SeenCons(ts);
      ForwardCons(Seen(Framed(ts[0]), []), SeenAll(Wire(ts[1..])), rtid);
      EncodeCons(ts[0].m, SentTo(ts[1..], rtid));
      assert [] + SentTo(ts[1..], rtid) == SentTo(ts[1..], rtid);
    }
  }

  /** A stream that mixes messages for any tunnels with the relay's own frames: what comes out for each
      tunnel is the stream the direct path would carry, so its far end reads exactly the messages sent to
      it, in order. */
  lemma RelayTransparent(ts: seq<Traffic>, rtid: nat)
    requires forall t :: t in ts ==> Proper(t)
    ensures AfterRelay(EncodeAll(Wire(ts)), rtid) == EncodeAll(SentTo(ts, rtid))
    ensures ReadAll(AfterRelay(EncodeAll(Wire(ts)), rtid)) == (SeenAll(SentTo(ts, rtid)), [])
  {
    var es, ms := Wire(ts), SentTo(ts, rtid);
    forall e | e in es ensures Fits(e) {
      var i :| 0 <= i < |es| && es[i] == e;
      assert Proper(ts[i]);
    }
    assert EncodeAll(es) + [] == EncodeAll(es) && EncodeAll(ms) + [] == EncodeAll(ms);
    ForwardTraffic(ts, rtid);
    SentRelayable(ts, rtid);
    StreamRoundTrip(es, []);
    StreamRoundTrip(ms, []);
  }

  lemma OneRelayed(rtid: Uint64, m: Msg)
    requires Relayable(m)
    ensures AfterRelay(Encode(Envelope(rtid, m)), rtid) == Encode(m)
  {
    var ts := [Via(rtid, m)];
    RelayTransparent(ts, rtid);
    assert Wire(ts) == [Envelope(rtid, m)];
    assert SentTo(ts, rtid) == [m] + SentTo([], rtid) == [m];
    assert EncodeAll([m]) == Encode(m) + EncodeAll([]) == Encode(m);
    assert EncodeAll([Envelope(rtid, m)]) == Encode(Envelope(rtid, m)) + EncodeAll([]) == Encode(Envelope(rtid, m));
  }

  /** WriteBytes: the far end reads the two types and the data, directly and through a relay. */
  lemma WireBytesRead(rtid: Uint64, mainType: Uint16, subType: Uint16, data: Bytes, rest: Bytes)
    requires 16 + |data| < 0x1_0000_0000 && mainType <= 16
    ensures ReadFrame(WireBytes(0, mainType, subType, data) + rest) ==
            Frame(Header(|data|, mainType, subType), data, rest)
    ensures rtid != 0 ==> ReadFrame(AfterRelay(WireBytes(rtid, MsgP2P, subType, data), rtid) + rest) ==
                          Frame(Header(|data|, 4, subType), data, rest)
  {
    FrameRoundTrip(Msg(mainType, subType, data), rest);
    if rtid != 0 {
      WireBytesTransparent(rtid, subType, data);
      FrameRoundTrip(Msg(MsgP2P, subType, data), rest);
    }
  }

  /** WriteMessage: the far end reads the two types and the JSON; of a request that cannot be marshalled it
      reads nothing. */
  lemma WireMessageRead(rtid: Uint64, mainType: Uint16, subType: Uint16, json: Option<Bytes>, rest: Bytes)
    requires mainType <= 16 && (json.Some? ==> 16 + |json.value| < 0x1_0000_0000)
    ensures json.Some? ==>
              ReadFrame(WireMessage(0, mainType, subType, json) + rest) ==
              Frame(Header(|json.value|, mainType, subType), json.value, rest)
    ensures json.Some? && rtid != 0 ==>
              ReadFrame(AfterRelay(WireMessage(rtid, MsgP2P, subType, json), rtid) + rest) ==
              Frame(Header(|json.value|, 4, subType), json.value, rest)
    ensures json.None? ==> WireMessage(0, mainType, subType, json) == []
    ensures json.None? && rtid != 0 ==>
              && AfterRelay(WireMessage(rtid, MsgP2P, subType, json), rtid) == []
              && Forward(ReadFrame(WireMessage(rtid, MsgP2P, subType, json) + rest)) == Some((rtid, []))
  {
    if rtid != 0 {
      WireMessageTransparent(rtid, subType, json);
    }
    if json.None? {
      Le64(rtid);
      FrameRoundTrip(Msg(MsgP2P, MsgRelayData, Le(rtid, 8) + []), rest);
    } else {
      FrameRoundTrip(Msg(mainType, subType, json.value), rest);
      FrameRoundTrip(Msg(MsgP2P, subType, json.value), rest);
    }
  }

  /** A frame of the given types that carries an app id and then the JSON. */
  predicate CarriesApp(r: ReadResult, mainType: Uint16, subType: Uint16, appID: Uint64, json: Bytes, rest: Bytes) {
    && r.Frame? && r.head.mainType == mainType && r.head.subType == subType && r.rest == rest
    && |r.body| >= 8 && FromLe(r.body[..8]) == appID && r.body[8..] == json
  }

  /** WriteMessageWithAppID: the far end reads the app id in the first eight bytes and the JSON after it. */
  lemma WireMessageWithAppIDRead(appID: Uint64, rtid: Uint64, mainType: Uint16, subType: Uint16, json: Bytes,
                                 rest: Bytes)
    requires mainType <= 16 && 24 + |json| < 0x1_0000_0000
    ensures CarriesApp(ReadFrame(WireMessageWithAppID(appID, 0, mainType, subType, Some(json)) + rest),
                       mainType, subType, appID, json, rest)
    ensures rtid != 0 ==>
              var relayed := AfterRelay(WireMessageWithAppID(appID, rtid, MsgP2P, subType, Some(json)), rtid);
              CarriesApp(ReadFrame(relayed + rest), 4, subType, appID, json, rest)
  {
    var data := Le(appID, 8) + json;
    Le64(appID);
    assert data[..8] == Le(appID, 8) && data[8..] == json;
    FrameRoundTrip(Msg(mainType, subType, data), rest);
    if rtid != 0 {
      WireMessageWithAppIDTransparent(appID, rtid, subType, Some(json));
      FrameRoundTrip(Msg(MsgP2P, subType, data), rest);
    }
  }

  lemma WireBytesTransparent(rtid: Uint64, subType: Uint16, data: Bytes)
    requires rtid != 0 && 16 + |data| < 0x1_0000_0000
    ensures AfterRelay(WireBytes(rtid, MsgP2P, subType, data), rtid) == WireBytes(0, MsgP2P, subType, data)
  {
    var m := Msg(MsgP2P, subType, data);
    assert Le(rtid, 8) + EncodeHeader(MsgP2P, subType, |data|) + data == Le(rtid, 8) + Encode(m);
    OneRelayed(rtid, m);
  }

  /** A request that cannot be marshalled reaches the far end in neither way. */
  lemma WireMessageTransparent(rtid: Uint64, subType: Uint16, json: Option<Bytes>)
    requires rtid != 0 && (json.Some? ==> 16 + |json.value| < 0x1_0000_0000)
    ensures AfterRelay(WireMessage(rtid, MsgP2P, subType, json), rtid) == WireMessage(0, MsgP2P, subType, json)
  {
    if json.Some? {
      OneRelayed(rtid, Msg(MsgP2P, subType, json.value));
    } else {
      var e := Msg(MsgP2P, MsgRelayData, Le(rtid, 8) + []);
      StreamRoundTrip([e], []);
      assert EncodeAll([e]) + [] == Encode(e);
      assert ReadAll(Encode(e)).0 == [Seen(e, [])];
      assert ForwardAll([Seen(e, [])], rtid) == [];
    }
  }

  lemma WireMessageWithAppIDTransparent(appID: Uint64, rtid: Uint64, subType: Uint16, json: Option<Bytes>)
    requires rtid != 0 && (json.Some? ==> 24 + |json.value| < 0x1_0000_0000)
    ensures AfterRelay(WireMessageWithAppID(appID, rtid, MsgP2P, subType, json), rtid) ==
            WireMessageWithAppID(appID, 0, MsgP2P, subType, json)
  {
    if json.Some? {
      OneRelayed(rtid, Msg(MsgP2P, subType, Le(appID, 8) + json.value));
    }
  }

  lemma NodeDataWire(id: Uint64, sequence: Uint64, packet: Bytes, rtid: Uint64)
    ensures var m := NodeDataMsg(id, sequence, packet);
            && WireNodeData(id, sequence, packet, None) == Encode(m)
            && WireNodeData(id, sequence, packet, Some(rtid)) == Encode(Envelope(rtid, m))
  {
    var m := NodeDataMsg(id, sequence, packet);
    assert WireNodeData(id, sequence, packet, None) == Encode(m);
    assert |Encode(m)| == 24 + |packet|;
  }

  lemma NodeDataParses(id: Uint64, sequence: Uint64, packet: Bytes, rest: Bytes)
    requires 16 + |packet| < 0x1_0000_0000
    ensures NodeData(Seen(NodeDataMsg(id, sequence, packet), rest)) == Some((id, sequence, packet))
  {
    var m := NodeDataMsg(id, sequence, packet);
    Le64(id);
    Le64(sequence);
    assert m.data[..8] == Le(id, 8) && m.data[8..16] == Le(sequence, 8) && m.data[16..] == packet;
  }

  /** Node data: the relayed encoding, stripped by the relay, is the direct one, and the far end reads
      back the sender, the sequence number and the packet. */
  lemma NodeDataTransparent(id: Uint64, sequence: Uint64, packet: Bytes, rtid: Uint64, rest: Bytes)
    requires 32 + |packet| < 0x1_0000_0000
    ensures AfterRelay(WireNodeData(id, sequence, packet, Some(rtid)), rtid) == WireNodeData(id, sequence, packet, None)
    ensures NodeData(ReadFrame(WireNodeData(id, sequence, packet, None) + rest)) == Some((id, sequence, packet))
    ensures var r := ReadFrame(WireNodeData(id, sequence, packet, None) + rest);
            r.Frame? && r.head == Header(16 + |packet|, 4, 15) && r.rest == rest
    ensures var r := ReadFrame(WireNodeData(id, sequence, packet, Some(rtid)) + rest);
            && r.Frame? && r.head == Header(32 + |packet|, 4, 10) && r.rest == rest
            && FromLe(r.body[..8]) == rtid && r.body[8..] == WireNodeData(id, sequence, packet, None)
  {
    hide Encode, WireNodeData, AfterRelay, ReadFrame, NodeData;
    var m := NodeDataMsg(id, sequence, packet);
    NodeDataWire(id, sequence, packet, rtid);
    OneRelayed(rtid, m);
    FrameRoundTrip(m, rest);
    NodeDataParses(id, sequence, packet, rest);
    EnvelopeBody(rtid, m);
    FrameRoundTrip(Envelope(rtid, m), rest);
  }
}
