/**
 * The transcript that both peers of a P2P channel sign (packages/core/p2p-verify.js).
 *
 * Strings are their UTF-8 bytes. The four fields after the nonces can only be found from the
 * right end and the tag only from the left, so the encoding can be read only by parsing from
 * both ends, and only if enough of its strings are free of the separator.
 */
module P2PVerify {
  import opened Common

  const NONCE_LEN := 32
  const FIELD_SEP: byte := 0

  /** "mxdx.p2p.verify.v1" */
  const TAG: Bytes := [109, 120, 100, 120, 46, 112, 50, 112, 46, 118, 101, 114, 105, 102, 121, 46, 118, 49]

  datatype Params = Params(
    roomId: Bytes,
    sessionUuid: Bytes,
    callId: Bytes,
    offererNonce: Bytes,
    answererNonce: Bytes,
    offererPartyId: Bytes,
    answererPartyId: Bytes,
    offererFingerprint: Bytes,
    answererFingerprint: Bytes
  )

  predicate NulFree(s: Bytes) {
    FIELD_SEP !in s
  }

  predicate NoncesFit(p: Params) {
    |p.offererNonce| == NONCE_LEN && |p.answererNonce| == NONCE_LEN
  }

  datatype Field = Room | Session | Call | OffererParty | AnswererParty | OffererFp | AnswererFp

  function FieldOf(p: Params, f: Field): Bytes {
    match f
    case Room => p.roomId
    case Session => p.sessionUuid
    case Call => p.callId
    case OffererParty => p.offererPartyId
    case AnswererParty => p.answererPartyId
    case OffererFp => p.offererFingerprint
    case AnswererFp => p.answererFingerprint
  }

  /** The inputs with 32-byte nonces whose `clean` strings are free of NUL; the others are arbitrary. */
  predicate InClass(clean: set<Field>, p: Params) {
    NoncesFit(p) && forall f :: f in clean ==> NulFree(FieldOf(p, f))
  }

  /** The four strings after the nonces are clean, and at least two of the three before them. */
  predicate Decodable(clean: set<Field>) {
    && {OffererParty, AnswererParty, OffererFp, AnswererFp} <= clean
    && ({Room, Session} <= clean || {Session, Call} <= clean || {Room, Call} <= clean)
  }

  // ---------------------------------------------------------------------------
  // The encoder
  // ---------------------------------------------------------------------------

  function Parts(p: Params): seq<Bytes> {
    FrontParts(p) + BackParts(p)
  }

  function FrontParts(p: Params): seq<Bytes> {
    [TAG, [FIELD_SEP], p.roomId]
      + [[FIELD_SEP], p.sessionUuid, [FIELD_SEP]]
      + [p.callId, p.offererNonce, p.answererNonce]
  }

  function BackParts(p: Params): seq<Bytes> {
    [[FIELD_SEP], p.offererPartyId, [FIELD_SEP], p.answererPartyId]
      + [[FIELD_SEP], p.offererFingerprint, [FIELD_SEP], p.answererFingerprint]
  }

  function Transcript(p: Params): Bytes {
    Concat(Parts(p))
  }

  datatype Built = Built(bytes: array<byte>) | BadNonce

  /** Throws on a nonce of the wrong length; otherwise copies the parts at their offsets. */
  method BuildTranscript(p: Params) returns (r: Built)
    ensures r.BadNonce? <==> !NoncesFit(p)
    ensures r.Built? ==> r.bytes[..] == Transcript(p)
  {
    if |p.offererNonce| != NONCE_LEN || |p.answererNonce| != NONCE_LEN {
      return BadNonce;
    }
    var out := ConcatBytes(Parts(p));
    r := Built(out);
  }

  // ---------------------------------------------------------------------------
  // A decoder that reads from both ends
  // ---------------------------------------------------------------------------

  /** Everything before the last separator, and everything after it. */
  function SplitLast(s: Bytes): Option<(Bytes, Bytes)> {
    if s == [] then None
    else if s[|s| - 1] == FIELD_SEP then Some((s[..|s| - 1], []))
    else
      match SplitLast(s[..|s| - 1])
      case Some((a, b)) => Some((a, b + [s[|s| - 1]]))
      case None => None
  }

  /** Everything before the first separator, and everything after it. */
  function SplitFirst(s: Bytes): Option<(Bytes, Bytes)> {
    if s == [] then None
    else if s[0] == FIELD_SEP then Some(([], s[1..]))
    else
      match SplitFirst(s[1..])
      case Some((a, b)) => Some(([s[0]] + a, b))
      case None => None
  }

  lemma {:induction false} SplitLastSound(s: Bytes)
    ensures SplitLast(s).Some? ==>
      var (a, b) := SplitLast(s).value; s == a + [FIELD_SEP] + b && NulFree(b)
  {
    if s != [] {
      var init, last := s[..|s| - 1], s[|s| - 1];
      assert s == init + [last];
      if last != FIELD_SEP {
        SplitLastSound(init);
      }
    }
  }

  lemma {:induction false} SplitLastOf(a: Bytes, b: Bytes)
    requires NulFree(b)
    ensures SplitLast(a + [FIELD_SEP] + b) == Some((a, b))
  {
    var s := a + [FIELD_SEP] + b;
    if b == [] {
      assert s[..|s| - 1] == a;
    } else {
      var init := b[..|b| - 1];
      assert s[..|s| - 1] == a + [FIELD_SEP] + init && s[|s| - 1] == b[|b| - 1];
      SplitLastOf(a, init);
      assert b == init + [b[|b| - 1]];
    }
  }

  lemma {:induction false} SplitFirstSound(s: Bytes)
    ensures SplitFirst(s).Some? ==>
      var (a, b) := SplitFirst(s).value; s == a + [FIELD_SEP] + b && NulFree(a)
  {
    if s != [] && s[0] != FIELD_SEP {
      SplitFirstSound(s[1..]);
      assert s == [s[0]] + s[1..];
    }
  }

  lemma {:induction false} SplitFirstOf(a: Bytes, b: Bytes)
    requires NulFree(a)
    ensures SplitFirst(a + [FIELD_SEP] + b) == Some((a, b))
  {
    var s := a + [FIELD_SEP] + b;
    if a == [] {
      assert s[1..] == b;
    } else {
      assert s[0] == a[0] && s[1..] == a[1..] + [FIELD_SEP] + b;
      SplitFirstOf(a[1..], b);
      assert a == [a[0]] + a[1..];
    }
  }

  datatype Tail = Tail(front: Bytes, offererPartyId: Bytes, answererPartyId: Bytes, offererFp: Bytes, answererFp: Bytes)

  function Joined(t: Tail): Bytes {
    t.front + [FIELD_SEP] + t.offererPartyId + [FIELD_SEP] + t.answererPartyId
      + [FIELD_SEP] + t.offererFp + [FIELD_SEP] + t.answererFp
  }

  /** Reads the four fields after the nonces, from the right. */
  function ParseTail(s: Bytes): Option<Tail> {
    match SplitLast(s)
    case None => None
    case Some((s3, f4)) =>
      match SplitLast(s3)
      case None => None
      case Some((s2, f3)) =>
        match SplitLast(s2)
        case None => None
        case Some((s1, f2)) =>
          match SplitLast(s1)
          case None => None
          case Some((front, f1)) => Some(Tail(front, f1, f2, f3, f4))
  }

  datatype Head = Head(roomId: Bytes, sessionUuid: Bytes, callId: Bytes)

  function HeadBytes(h: Head): Bytes {
    h.roomId + [FIELD_SEP] + h.sessionUuid + [FIELD_SEP] + h.callId
  }

  /** Reads room, session and call, from the ends at which clean strings stand. */
  function ParseHead(clean: set<Field>, s: Bytes): Option<Head> {
    if {Session, Call} <= clean then
      match SplitLast(s)
      case None => None
      case Some((s1, call)) =>
        match SplitLast(s1)
        case None => None
        case Some((room, session)) => Some(Head(room, session, call))
    else
      match SplitFirst(s)
      case None => None
      case Some((room, s1)) =>
        match (if Session in clean then SplitFirst(s1) else SplitLast(s1))
        case None => None
        case Some((session, call)) => Some(Head(room, session, call))
  }

  /** What the tag, the head and the two nonces occupy. */
  function FrontOf(h: Head, offererNonce: Bytes, answererNonce: Bytes): Bytes {
    TAG + [FIELD_SEP] + HeadBytes(h) + offererNonce + answererNonce
  }

  datatype Front = Front(body: Bytes, offererNonce: Bytes, answererNonce: Bytes)

  /** Takes the tag off the left and the nonces off the right. */
  function ParseFront(s: Bytes): Option<Front> {
    var t, k := |TAG| + 1, |s| - 2 * NONCE_LEN;
    if k < t || s[..t] != TAG + [FIELD_SEP] then None
    else Some(Front(s[t..k], s[k..k + NONCE_LEN], s[k + NONCE_LEN..]))
  }

  function ParamsFrom(h: Head, f: Front, t: Tail): Params {
    Params(h.roomId, h.sessionUuid, h.callId, f.offererNonce, f.answererNonce,
           t.offererPartyId, t.answererPartyId, t.offererFp, t.answererFp)
  }

  function ParseTranscript(clean: set<Field>, s: Bytes): Option<Params> {
    match ParseTail(s)
    case None => None
    case Some(t) =>
      match ParseFront(t.front)
      case None => None
      case Some(f) =>
        match ParseHead(clean, f.body)
        case None => None
        case Some(h) =>
          if InClass(clean, ParamsFrom(h, f, t)) then Some(ParamsFrom(h, f, t)) else None
  }

  lemma ParseTailOf(t: Tail)
    requires NulFree(t.offererPartyId) && NulFree(t.answererPartyId) && NulFree(t.offererFp) && NulFree(t.answererFp)
    ensures ParseTail(Joined(t)) == Some(t)
  {
    hide SplitLast, NulFree;
    var s1 := t.front + [FIELD_SEP] + t.offererPartyId;
    var s2 := s1 + [FIELD_SEP] + t.answererPartyId;
    var s3 := s2 + [FIELD_SEP] + t.offererFp;
    SplitLastOf(s3, t.answererFp);
    SplitLastOf(s2, t.offererFp);
    SplitLastOf(s1, t.answererPartyId);
    SplitLastOf(t.front, t.offererPartyId);
  }

  lemma ParseTailSound(s: Bytes)
    ensures ParseTail(s).Some? ==>
      var t := ParseTail(s).value;
      && Joined(t) == s
      && NulFree(t.offererPartyId) && NulFree(t.answererPartyId) && NulFree(t.offererFp) && NulFree(t.answererFp)
  {
    hide SplitLast, NulFree;
    if ParseTail(s).Some? {
      SplitLastSound(s);
      var (s3, _) := SplitLast(s).value;
      SplitLastSound(s3);
      var (s2, _) := SplitLast(s3).value;
      SplitLastSound(s2);
      var (s1, _) := SplitLast(s2).value;
      SplitLastSound(s1);
    }
  }

  lemma ParseHeadOf(clean: set<Field>, h: Head)
    requires Decodable(clean)
    requires Room in clean ==> NulFree(h.roomId)
    requires Session in clean ==> NulFree(h.sessionUuid)
    requires Call in clean ==> NulFree(h.callId)
    ensures ParseHead(clean, HeadBytes(h)) == Some(h)
  {
    hide SplitFirst, SplitLast, NulFree;
    var left, right := h.roomId + [FIELD_SEP] + h.sessionUuid, h.sessionUuid + [FIELD_SEP] + h.callId;
    if {Session, Call} <= clean {
      SplitLastOf(left, h.callId);
      SplitLastOf(h.roomId, h.sessionUuid);
    } else {
      assert Room in clean;
      assert HeadBytes(h) == h.roomId + [FIELD_SEP] + right;
      SplitFirstOf(h.roomId, right);
      if Session in clean {
        SplitFirstOf(h.sessionUuid, h.callId);
      } else {
        SplitLastOf(h.sessionUuid, h.callId);
      }
    }
  }

  lemma ParseHeadSound(clean: set<Field>, s: Bytes)
    ensures ParseHead(clean, s).Some? ==> HeadBytes(ParseHead(clean, s).value) == s
  {
    hide SplitFirst, SplitLast, NulFree;
    if ParseHead(clean, s).Some? {
      var h := ParseHead(clean, s).value;
      if {Session, Call} <= clean {
        SplitLastSound(s);
        SplitLastSound(SplitLast(s).value.0);
      } else {
        SplitFirstSound(s);
        var s1 := SplitFirst(s).value.1;
        SplitFirstSound(s1);
        SplitLastSound(s1);
        assert s1 == h.sessionUuid + [FIELD_SEP] + h.callId;
        assert HeadBytes(h) == h.roomId + [FIELD_SEP] + s1;
      }
    }
  }

  lemma ParseFrontOf(h: Head, offererNonce: Bytes, answererNonce: Bytes)
    requires |offererNonce| == NONCE_LEN && |answererNonce| == NONCE_LEN
    ensures ParseFront(FrontOf(h, offererNonce, answererNonce))
         == Some(Front(HeadBytes(h), offererNonce, answererNonce))
  {
    hide HeadBytes, TAG;
    var body, tag := HeadBytes(h), TAG + [FIELD_SEP];
    var s := FrontOf(h, offererNonce, answererNonce);
    var t, k := |tag|, |s| - 2 * NONCE_LEN;
    assert s == tag + body + offererNonce + answererNonce;
    assert s[..t] == tag && s[t..k] == body && s[k..k + NONCE_LEN] == offererNonce;
  }

  lemma ParseFrontSound(s: Bytes, h: Head)
    requires ParseFront(s).Some? && HeadBytes(h) == ParseFront(s).value.body
    ensures FrontOf(h, ParseFront(s).value.offererNonce, ParseFront(s).value.answererNonce) == s
  {
    hide HeadBytes, TAG;
    var t, k := |TAG| + 1, |s| - 2 * NONCE_LEN;
    assert s == s[..t] + s[t..k] + s[k..k + NONCE_LEN] + s[k + NONCE_LEN..];
  }

  function HeadOf(p: Params): Head {
    Head(p.roomId, p.sessionUuid, p.callId)
  }

  function TailOf(p: Params): Tail {
    Tail(FrontOf(HeadOf(p), p.offererNonce, p.answererNonce),
         p.offererPartyId, p.answererPartyId, p.offererFingerprint, p.answererFingerprint)
  }

  lemma FrontBytes(p: Params)
    ensures Concat(FrontParts(p)) == FrontOf(HeadOf(p), p.offererNonce, p.answererNonce)
  {
    hide Concat, TAG;
    var a, b, c := [TAG, [FIELD_SEP], p.roomId], [[FIELD_SEP], p.sessionUuid, [FIELD_SEP]],
      [p.callId, p.offererNonce, p.answererNonce];
    ConcatAppend(a + b, c);
    ConcatAppend(a, b);
    ConcatThree(TAG, [FIELD_SEP], p.roomId);
    ConcatThree([FIELD_SEP], p.sessionUuid, [FIELD_SEP]);
    ConcatThree(p.callId, p.offererNonce, p.answererNonce);
  }

  lemma BackBytes(p: Params)
    ensures Concat(BackParts(p))
      == ([FIELD_SEP] + p.offererPartyId + [FIELD_SEP] + p.answererPartyId)
       + ([FIELD_SEP] + p.offererFingerprint + [FIELD_SEP] + p.answererFingerprint)
  {
    hide Concat;
    ConcatAppend([[FIELD_SEP], p.offererPartyId, [FIELD_SEP], p.answererPartyId],
                 [[FIELD_SEP], p.offererFingerprint, [FIELD_SEP], p.answererFingerprint]);
    ConcatFour([FIELD_SEP], p.offererPartyId, [FIELD_SEP], p.answererPartyId);
    ConcatFour([FIELD_SEP], p.offererFingerprint, [FIELD_SEP], p.answererFingerprint);
  }

  lemma TranscriptIs(p: Params)
    ensures Transcript(p) == Joined(TailOf(p))
  {
    hide Concat, FrontParts, BackParts, FrontOf;
    ConcatAppend(FrontParts(p), BackParts(p));
    FrontBytes(p);
    BackBytes(p);
  }

  lemma ConcatThree(a: Bytes, b: Bytes, c: Bytes)
    ensures Concat([a, b, c]) == a + b + c
  {
    assert [a, b, c][1..] == [b, c] && [b, c][1..] == [c];
    assert Concat([c]) == c + Concat([]);
    assert Concat([b, c]) == b + Concat([c]);
  }

  lemma ConcatFour(a: Bytes, b: Bytes, c: Bytes, d: Bytes)
    ensures Concat([a, b, c, d]) == a + b + c + d
  {
    assert [a, b, c, d][1..] == [b, c, d];
    ConcatThree(b, c, d);
  }

  lemma CleanFields(clean: set<Field>, p: Params)
    requires InClass(clean, p)
    ensures Room in clean ==> NulFree(p.roomId)
    ensures Session in clean ==> NulFree(p.sessionUuid)
    ensures Call in clean ==> NulFree(p.callId)
    ensures OffererParty in clean ==> NulFree(p.offererPartyId)
    ensures AnswererParty in clean ==> NulFree(p.answererPartyId)
    ensures OffererFp in clean ==> NulFree(p.offererFingerprint)
    ensures AnswererFp in clean ==> NulFree(p.answererFingerprint)
  {
    hide NulFree;
    assert forall f :: f in clean ==> NulFree(FieldOf(p, f));
    assert FieldOf(p, Room) == p.roomId && FieldOf(p, Session) == p.sessionUuid && FieldOf(p, Call) == p.callId;
    assert FieldOf(p, OffererParty) == p.offererPartyId && FieldOf(p, AnswererParty) == p.answererPartyId;
    assert FieldOf(p, OffererFp) == p.offererFingerprint && FieldOf(p, AnswererFp) == p.answererFingerprint;
  }

  /** Reading a transcript back gives its parameters, whatever the strings that need not be clean hold. */
  lemma ParseOfTranscript(clean: set<Field>, p: Params)
    requires Decodable(clean) && InClass(clean, p)
    ensures ParseTranscript(clean, Transcript(p)) == Some(p)
  {
    CleanFields(clean, p);
    hide ParseTail, ParseHead, ParseFront, Transcript, Joined, HeadBytes, FrontOf, NulFree, FieldOf;
    TranscriptIs(p);
    ParseTailOf(TailOf(p));
    ParseFrontOf(HeadOf(p), p.offererNonce, p.answererNonce);
    ParseHeadOf(clean, HeadOf(p));
  }

  /** Whatever parses is the transcript of what was parsed. */
  lemma TranscriptOfParse(clean: set<Field>, s: Bytes)
    ensures ParseTranscript(clean, s).Some? ==>
      var p := ParseTranscript(clean, s).value; InClass(clean, p) && Transcript(p) == s
  {
    hide ParseTail, ParseHead, ParseFront, Transcript, Joined, HeadBytes, FrontOf, InClass;
    if ParseTranscript(clean, s).Some? {
      ParseTailSound(s);
      var f := ParseFront(ParseTail(s).value.front).value;
      ParseHeadSound(clean, f.body);
      ParseFrontSound(ParseTail(s).value.front, ParseHead(clean, f.body).value);
      TranscriptIs(ParseTranscript(clean, s).value);
    }
  }

  /**
   * The encoding is injective over arbitrary 32-byte nonces as soon as the strings after them and
   * two of the three before them are free of NUL, although the call id runs into the nonces
   * without a separator.
   */
  lemma Injective(clean: set<Field>, p: Params, q: Params)
    requires Decodable(clean) && InClass(clean, p) && InClass(clean, q)
    ensures Transcript(p) == Transcript(q) <==> p == q
  {
    hide ParseTranscript, Transcript, Decodable, InClass;
    ParseOfTranscript(clean, p);
    ParseOfTranscript(clean, q);
  }

  ghost predicate InjectiveOn(clean: set<Field>) {
    forall p, q :: InClass(clean, p) && InClass(clean, q) && Transcript(p) == Transcript(q) ==> p == q
  }

  function Repeat(b: byte, n: nat): Bytes {
    seq(n, _ => b)
  }

  /** Every string is the byte `b`, and so is every byte of the nonces. */
  function Sample(b: byte): Params {
    Params([b], [b], [b], Repeat(b, 32), Repeat(b, 32), [b], [b], [b], [b])
  }

  /** The same, with two bytes of the nonces in the call id and a separator in the nonces. */
  function Shifted(b: byte): Params {
    Sample(b).(callId := [b, b, b], answererNonce := Repeat(b, 30) + [FIELD_SEP, b])
  }

  /** The sample with a NUL in one string. */
  function WithNul(b: byte, f: Field): Params {
    var dirty := [b, FIELD_SEP, b];
    match f
    case Room => Sample(b).(roomId := dirty)
    case Session => Sample(b).(sessionUuid := dirty)
    case Call => Sample(b).(callId := dirty)
    case OffererParty => Sample(b).(offererPartyId := dirty)
    case AnswererParty => Sample(b).(answererPartyId := dirty)
    case OffererFp => Sample(b).(offererFingerprint := dirty)
    case AnswererFp => Sample(b).(answererFingerprint := dirty)
  }

  predicate AfterNonces(f: Field) {
    f.OffererParty? || f.AnswererParty? || f.OffererFp? || f.AnswererFp?
  }

  /** No string is empty. */
  predicate NoneEmpty(p: Params) {
    forall f :: FieldOf(p, f) != []
  }

  lemma WithNulClass(clean: set<Field>, b: byte, f: Field)
    requires b != FIELD_SEP && f !in clean
    ensures InClass(clean, WithNul(b, f)) && NoneEmpty(WithNul(b, f))
  {
    forall g ensures FieldOf(WithNul(b, f), g) == if g == f then [b, FIELD_SEP, b] else [b] {
    }
  }

  lemma ShiftedClass(clean: set<Field>, b: byte)
    requires b != FIELD_SEP
    ensures InClass(clean, Shifted(b)) && NoneEmpty(Shifted(b))
  {
    forall g ensures FieldOf(Shifted(b), g) == if g == Call then [b, b, b] else [b] {
    }
  }

  /**
   * A NUL in any one string after the nonces collides with no NUL at all: the call id takes
   * bytes of the nonces, and these the separator behind them.
   */
  lemma CollidesAfterNonces(b: byte, f: Field)
    requires AfterNonces(f)
    ensures Transcript(WithNul(b, f)) == Transcript(Shifted(b))
  {
    hide *;
    TranscriptIs(WithNul(b, f));
    TranscriptIs(Shifted(b));
    JoinedSplit(TailOf(WithNul(b, f)));
    JoinedSplit(TailOf(Shifted(b)));
    ShiftedFront(b);
    HeadUntouched(b, f);
    Backs(b, f);
    Regroup(TailOf(Sample(b)).front, [FIELD_SEP, b]);
  }

  lemma Regroup(front: Bytes, g: Bytes)
    ensures (front + g) + (g + g + g + g) == front + (g + g + g + g + g)
  {
  }

  lemma HeadUntouched(b: byte, f: Field)
    requires AfterNonces(f)
    ensures TailOf(WithNul(b, f)).front == TailOf(Sample(b)).front
  {
    hide FrontOf;
  }

  /** What the strings after the nonces occupy. */
  function BackOf(t: Tail): Bytes {
    [FIELD_SEP] + t.offererPartyId + [FIELD_SEP] + t.answererPartyId
    + [FIELD_SEP] + t.offererFp + [FIELD_SEP] + t.answererFp
  }

  lemma JoinedSplit(t: Tail)
    ensures Joined(t) == t.front + BackOf(t)
  {
  }

  lemma Backs(b: byte, f: Field)
    requires AfterNonces(f)
    ensures var g := [FIELD_SEP, b];
      BackOf(TailOf(WithNul(b, f))) == g + g + g + g + g && BackOf(TailOf(Shifted(b))) == g + g + g + g
  {
    hide FrontOf;
  }

  lemma ShiftedFront(b: byte)
    ensures TailOf(Shifted(b)).front == TailOf(Sample(b)).front + [FIELD_SEP, b]
  {
    hide TAG;
    var p, q := Sample(b), Shifted(b);
    var head, many, most := TAG + [FIELD_SEP] + HeadBytes(HeadOf(p)), Repeat(b, 32), Repeat(b, 30);
    assert HeadBytes(HeadOf(q)) == HeadBytes(HeadOf(p)) + [b, b];
    assert [b, b] + many + most == many + many;
    assert TailOf(p).front == head + (many + many);
    assert TailOf(q).front == head + ([b, b] + many + most) + [FIELD_SEP, b];
  }

  /** A NUL in one string before the nonces collides with the same NUL in another. */
  lemma CollideBeforeNonces(b: byte, f: Field, g: Field)
    requires !AfterNonces(f) && !AfterNonces(g)
    ensures Transcript(WithNul(b, f)) == Transcript(WithNul(b, g))
  {
    TranscriptIs(WithNul(b, f));
    TranscriptIs(WithNul(b, g));
    DirtyHead(b, f);
    DirtyHead(b, g);
    hide HeadBytes, Transcript, TAG;
  }

  lemma DirtyHead(b: byte, f: Field)
    requires !AfterNonces(f)
    ensures HeadBytes(HeadOf(WithNul(b, f))) == [b, FIELD_SEP, b, FIELD_SEP, b, FIELD_SEP, b]
  {
  }

  /** Two inputs of a class that is not decodable, without an empty string, with the same transcript. */
  lemma Collision(clean: set<Field>) returns (p: Params, q: Params)
    requires !Decodable(clean)
    ensures InClass(clean, p) && InClass(clean, q) && p != q && Transcript(p) == Transcript(q)
    ensures NoneEmpty(p) && NoneEmpty(q)
  {
    hide Transcript, InClass, NoneEmpty;
    var b: byte := 1;
    if f :| f !in clean && AfterNonces(f) {
      p, q := WithNul(b, f), Shifted(b);
      CollidesAfterNonces(b, f);
      WithNulClass(clean, b, f);
      ShiftedClass(clean, b);
    } else {
      assert forall f :: AfterNonces(f) ==> f in clean;
      assert {OffererParty, AnswererParty, OffererFp, AnswererFp} <= clean;
      var f, g := if Room !in clean then Room else Session, if Call !in clean then Call else Session;
      p, q := WithNul(b, f), WithNul(b, g);
      CollideBeforeNonces(b, f, g);
      WithNulClass(clean, b, f);
      WithNulClass(clean, b, g);
    }
  }

  /**
   * The exact boundary, over every choice of the strings required to be free of NUL: the encoding
   * is injective on that class if and only if the four strings after the nonces and at least two
   * of room, session and call are among them.
   */
  lemma InjectiveIff(clean: set<Field>)
    ensures InjectiveOn(clean) <==> Decodable(clean)
  {
    hide Transcript, Decodable, InClass;
    if Decodable(clean) {
      forall p, q | InClass(clean, p) && InClass(clean, q) && Transcript(p) == Transcript(q) ensures p == q {
        Injective(clean, p, q);
      }
    } else {
      var p, q := Collision(clean);
    }
  }

  /** Any NUL can move between room and session, not only that of the sample. */
  lemma NotInjectiveWithNul(p: Params, a: Bytes, b: Bytes, c: Bytes)
    ensures Transcript(p.(roomId := a + [FIELD_SEP] + b, sessionUuid := c))
         == Transcript(p.(roomId := a, sessionUuid := b + [FIELD_SEP] + c))
    ensures a + [FIELD_SEP] + b != a
  {
    var x := p.(roomId := a + [FIELD_SEP] + b, sessionUuid := c);
    var y := p.(roomId := a, sessionUuid := b + [FIELD_SEP] + c);
    TranscriptIs(x);
    TranscriptIs(y);
    assert HeadBytes(HeadOf(x)) == HeadBytes(HeadOf(y));
    hide HeadBytes, Transcript, TAG;
    assert |a + [FIELD_SEP] + b| > |a|;
  }
}
