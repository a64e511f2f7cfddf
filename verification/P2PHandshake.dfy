/**
 * The v2 handshake of a P2P channel (packages/core/p2p-transport.js): what one peer signs, what
 * the other accepts, and the agreement that gives them.
 */
module P2PHandshake {
  import opened Common
  import opened P2PVerify

  /** `canonicalOrdering`: the offerer's value first. */
  function CanonicalOrdering<T>(ours: T, theirs: T, weAreOfferer: bool): (T, T) {
    if weAreOfferer then (ours, theirs) else (theirs, ours)
  }

  /** What one peer holds when it signs or verifies. */
  datatype Peer = Peer(
    roomId: Bytes,
    sessionUuid: Option<Bytes>,
    callId: Bytes,
    weAreOfferer: bool,
    localNonce: Bytes,
    remoteNonce: Bytes,
    localDeviceId: Bytes,
    peerDeviceId: Bytes,
    offerFingerprint: Bytes,
    answerFingerprint: Bytes
  )

  /** An absent session is signed as the empty one. */
  function SessionBytes(session: Option<Bytes>): Bytes {
    match session
    case Some(s) => s
    case None => []
  }

  function ParamsOf(x: Peer): Params {
    var (offNonce, ansNonce) := CanonicalOrdering(x.localNonce, x.remoteNonce, x.weAreOfferer);
    var (offParty, ansParty) := CanonicalOrdering(x.localDeviceId, x.peerDeviceId, x.weAreOfferer);
    Params(x.roomId, SessionBytes(x.sessionUuid), x.callId, offNonce, ansNonce, offParty, ansParty,
           x.offerFingerprint, x.answerFingerprint)
  }

  /** The peer holds 32-byte nonces, and its `clean` strings are free of NUL. */
  predicate WellFormed(clean: set<Field>, x: Peer) {
    InClass(clean, ParamsOf(x))
  }

  /** `#canDoV2`, and fingerprints found in both descriptions: without these nothing is signed. */
  predicate CanSign(x: Peer) {
    x.roomId != [] && x.callId != [] && x.offerFingerprint != [] && x.answerFingerprint != []
  }

  /** An ideal signature: it names its key and its message, and verifies for no other. */
  datatype Signature = Signature(key: nat, message: Bytes)

  datatype Response = Response(signature: Signature, signerKey: nat, deviceId: Bytes)

  /** `#sendVerifyResponse`. */
  function Respond(x: Peer, key: nat): Response {
    Response(Signature(key, Transcript(ParamsOf(x))), key, x.localDeviceId)
  }

  /** A peer that holds no device id of the other takes the one in the response. */
  function Effective(x: Peer, deviceId: Bytes): Peer {
    if x.peerDeviceId == [] then x.(peerDeviceId := deviceId) else x
  }

  /**
   * `#handleVerifyResponse`: the key must equal the one known for the device, if any, and the
   * signature must verify over our own transcript.
   */
  predicate Accepts(x: Peer, knownKey: Option<nat>, r: Response) {
    && (knownKey.Some? ==> knownKey.value == r.signerKey)
    && r.signature == Signature(r.signerKey, Transcript(ParamsOf(Effective(x, r.deviceId))))
  }

  /** Each peer's view of the session is the other's, with local and remote swapped. */
  predicate Agree(x: Peer, y: Peer) {
    && SameCall(x, y)
    && x.localNonce == y.remoteNonce && x.remoteNonce == y.localNonce
    && x.localDeviceId == y.peerDeviceId && x.peerDeviceId == y.localDeviceId
  }

  predicate SameCall(x: Peer, y: Peer) {
    && x.roomId == y.roomId
    && SessionBytes(x.sessionUuid) == SessionBytes(y.sessionUuid)
    && x.callId == y.callId
    && x.offerFingerprint == y.offerFingerprint
    && x.answerFingerprint == y.answerFingerprint
  }

  /**
   * What is signed, read back from the message: the offerer's nonce and id first, whichever side
   * of the call the signer is on.
   */
  lemma SignedByRole(clean: set<Field>, x: Peer, key: nat)
    requires Decodable(clean) && WellFormed(clean, x)
    ensures var parsed := ParseTranscript(clean, Respond(x, key).signature.message);
      && parsed.Some?
      && parsed.value.offererNonce == (if x.weAreOfferer then x.localNonce else x.remoteNonce)
      && parsed.value.answererNonce == (if x.weAreOfferer then x.remoteNonce else x.localNonce)
      && parsed.value.offererPartyId == (if x.weAreOfferer then x.localDeviceId else x.peerDeviceId)
      && parsed.value.answererPartyId == (if x.weAreOfferer then x.peerDeviceId else x.localDeviceId)
      && parsed.value.offererFingerprint == x.offerFingerprint
      && parsed.value.answererFingerprint == x.answerFingerprint
      && parsed.value.roomId == x.roomId && parsed.value.callId == x.callId
      && parsed.value.sessionUuid == (if x.sessionUuid.Some? then x.sessionUuid.value else [])
    ensures Respond(x, key).signerKey == Respond(x, key).signature.key == key
    ensures Respond(x, key).deviceId == x.localDeviceId
  {
    hide Transcript, ParseTranscript, Decodable, InClass;
    ParseOfTranscript(clean, ParamsOf(x));
  }

  // ---------------------------------------------------------------------------
  // Complementary roles
  // ---------------------------------------------------------------------------

  /**
   * Between peers with complementary roles, a response is accepted if and only if its key is the
   * known one (when one is known) and the two peers agree on everything signed, where a peer that
   * holds no device id takes over the one in the response.
   */
  lemma AcceptedIffAgreed(clean: set<Field>, x: Peer, y: Peer, key: nat, knownKey: Option<nat>)
    requires Decodable(clean) && WellFormed(clean, Effective(x, y.localDeviceId)) && WellFormed(clean, y)
    requires x.weAreOfferer != y.weAreOfferer
    ensures Accepts(x, knownKey, Respond(y, key))
       <==> (knownKey.Some? ==> knownKey.value == key) && Agree(Effective(x, y.localDeviceId), y)
  {
    hide Transcript, Decodable, InClass;
    Injective(clean, ParamsOf(Effective(x, y.localDeviceId)), ParamsOf(y));
  }

  /**
   * Acceptance means agreement of the peers themselves exactly when the accepting one holds a
   * device id, or the other has none.
   */
  lemma HeldIdDecides(clean: set<Field>, x: Peer, y: Peer, key: nat, knownKey: Option<nat>)
    requires Decodable(clean) && WellFormed(clean, Effective(x, y.localDeviceId)) && WellFormed(clean, y)
    requires x.weAreOfferer != y.weAreOfferer
    ensures Accepts(x, knownKey, Respond(y, key)) ==>
      (Agree(x, y) <==> x.peerDeviceId != [] || y.localDeviceId == [])
    ensures Agree(x, y) && (knownKey.Some? ==> knownKey.value == key) ==> Accepts(x, knownKey, Respond(y, key))
  {
    hide Decodable, WellFormed, Accepts, Respond;
    AcceptedIffAgreed(clean, x, y, key, knownKey);
  }

  /** The failing inputs: an empty held id accepts a named peer that it otherwise agrees with. */
  lemma EmptyIdAccepts(x: Peer, y: Peer, key: nat)
    requires x.weAreOfferer != y.weAreOfferer && x.peerDeviceId == [] && y.localDeviceId != []
    requires Agree(x.(peerDeviceId := y.localDeviceId), y)
    ensures Accepts(x, None, Respond(y, key)) && !Agree(x, y)
  {
    hide Transcript;
  }

  /** Between peers that can sign and hold each other's id, acceptance means agreement. */
  ghost predicate AcceptanceIsAgreement(clean: set<Field>) {
    forall x, y, key {:trigger Respond(y, key), WellFormed(clean, x)} ::
      && WellFormed(clean, x) && WellFormed(clean, y) && CanSign(x) && CanSign(y)
      && x.peerDeviceId != [] && x.weAreOfferer != y.weAreOfferer ==>
        (Accepts(x, None, Respond(y, key)) <==> Agree(x, y))
  }

  function PeerOf(p: Params, offerer: bool): Peer {
    var (localNonce, remoteNonce) := CanonicalOrdering(p.offererNonce, p.answererNonce, offerer);
    var (localId, peerId) := CanonicalOrdering(p.offererPartyId, p.answererPartyId, offerer);
    Peer(p.roomId, Some(p.sessionUuid), p.callId, offerer, localNonce, remoteNonce, localId, peerId,
         p.offererFingerprint, p.answererFingerprint)
  }

  lemma PeerOfSigns(p: Params, offerer: bool)
    requires NoneEmpty(p)
    ensures CanSign(PeerOf(p, offerer)) && PeerOf(p, offerer).peerDeviceId != []
    ensures ParamsOf(PeerOf(p, offerer)) == p
  {
    assert FieldOf(p, Room) != [] && FieldOf(p, Call) != [];
    assert FieldOf(p, OffererFp) != [] && FieldOf(p, AnswererFp) != [];
    assert FieldOf(p, OffererParty) != [] && FieldOf(p, AnswererParty) != [];
  }

  /**
   * The handshake has the same exact boundary as the encoding: acceptance means agreement between
   * all complementary peers of a class that can sign and hold an id if and only if its clean
   * strings make transcripts decodable.
   */
  lemma AgreementIff(clean: set<Field>)
    ensures AcceptanceIsAgreement(clean) <==> Decodable(clean)
  {
    hide Transcript, Decodable, InClass, NoneEmpty, CanSign;
    if Decodable(clean) {
      forall x, y, key: nat |
        WellFormed(clean, x) && WellFormed(clean, y) && x.peerDeviceId != [] && x.weAreOfferer != y.weAreOfferer
        ensures Accepts(x, None, Respond(y, key)) <==> Agree(x, y)
      {
        AcceptedIffAgreed(clean, x, y, key, None);
      }
    } else {
      var p, q := Collision(clean);
      var x, y := PeerOf(p, true), PeerOf(q, false);
      PeerOfSigns(p, true);
      PeerOfSigns(q, false);
      assert WellFormed(clean, x) && WellFormed(clean, y);
      assert Accepts(x, None, Respond(y, 0)) && !Agree(x, y);
    }
  }

  // ---------------------------------------------------------------------------
  // Equal roles
  // ---------------------------------------------------------------------------

  /** The peers hold the same view, local and remote not swapped. */
  predicate SameView(x: Peer, y: Peer) {
    && SameCall(x, y)
    && x.localNonce == y.localNonce && x.remoteNonce == y.remoteNonce
    && x.localDeviceId == y.localDeviceId && x.peerDeviceId == y.peerDeviceId
  }

  /** With the same role on both sides, only a peer with one's own view is accepted. */
  lemma SameRoleAccepted(clean: set<Field>, x: Peer, y: Peer, key: nat, knownKey: Option<nat>)
    requires Decodable(clean) && WellFormed(clean, Effective(x, y.localDeviceId)) && WellFormed(clean, y)
    requires x.weAreOfferer == y.weAreOfferer
    ensures Accepts(x, knownKey, Respond(y, key))
       <==> (knownKey.Some? ==> knownKey.value == key) && SameView(Effective(x, y.localDeviceId), y)
  {
    hide Transcript, Decodable, InClass;
    Injective(clean, ParamsOf(Effective(x, y.localDeviceId)), ParamsOf(y));
  }

  /** So peers of the same role with different device ids or nonces never accept each other. */
  lemma SameRoleRejected(clean: set<Field>, x: Peer, y: Peer, key: nat, knownKey: Option<nat>)
    requires Decodable(clean) && WellFormed(clean, Effective(x, y.localDeviceId)) && WellFormed(clean, y)
    requires x.weAreOfferer == y.weAreOfferer
    requires x.localDeviceId != y.localDeviceId || x.localNonce != y.localNonce
    ensures !Accepts(x, knownKey, Respond(y, key))
  {
    hide Decodable, WellFormed, Accepts, Respond;
    SameRoleAccepted(clean, x, y, key, knownKey);
  }

  /**
   * A peer's own response, sent back to it, is accepted whatever its strings hold, unless it has
   * a device id and holds none of its peer.
   */
  lemma OwnResponseAccepted(x: Peer, key: nat)
    ensures Accepts(x, None, Respond(x, key)) <==> x.peerDeviceId != [] || x.localDeviceId == []
  {
    var e := Effective(x, x.localDeviceId);
    TranscriptLength(ParamsOf(x));
    TranscriptLength(ParamsOf(e));
    hide Transcript;
  }

  lemma TranscriptLength(p: Params)
    ensures |Transcript(p)| == |TAG| + 7
      + |p.roomId| + |p.sessionUuid| + |p.callId| + |p.offererNonce| + |p.answererNonce|
      + |p.offererPartyId| + |p.answererPartyId| + |p.offererFingerprint| + |p.answererFingerprint|
  {
    hide Transcript, TAG;
    TranscriptIs(p);
  }
}
