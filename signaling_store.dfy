/**
 * The per-room voice signalling slot that the voice panel reads and writes
 * through `startVoiceSession`, `sendSdpOffer`, `sendSdpAnswer`,
 * `addIceCandidate`, `endVoiceSession` and `getVoiceSessionState`.
 * The backend that keeps it is not part of this model; this module states the
 * contract the panel relies on: offer and answer are overwritten, candidates
 * are appended without deduplication, and ending clears everything.
 */
module SignalingStore {
  import opened Wrappers

  /** An ICE candidate as the store keeps it: the candidate line and its media-line index. */
  datatype IceCandidate = IceCandidate(candidate: string, lineIndex: nat)

  /** `VoiceSessionState`: optional offer and answer SDP and the candidates published so far. */
  datatype Session = Session(offer: Option<string>, answer: Option<string>, candidates: seq<IceCandidate>)

  /** A session with nothing in it yet. */
  const Empty := Session(None, None, [])

  /** `startVoiceSession`: opens a session when there is none and keeps an existing one. */
  function Started(s: Option<Session>): (r: Option<Session>)
    ensures r.Some?
    ensures s.Some? ==> r == s
    ensures s.None? ==> r.value.offer.None? && r.value.answer.None? && r.value.candidates == []
  {
    if s.None? then Some(Empty) else s
  }

  /** `sendSdpOffer`: overwrites the offer of an open session. */
  function WithOffer(s: Option<Session>, sdp: string): (r: Option<Session>)
    ensures r.Some? <==> s.Some?
    ensures s.Some? ==> r.value.offer == Some(sdp)
    ensures s.Some? ==> r.value.answer == s.value.answer && r.value.candidates == s.value.candidates
  {
    if s.Some? then Some(s.value.(offer := Some(sdp))) else s
  }

  /** `sendSdpAnswer`: overwrites the answer of an open session. */
  function WithAnswer(s: Option<Session>, sdp: string): (r: Option<Session>)
    ensures r.Some? <==> s.Some?
    ensures s.Some? ==> r.value.answer == Some(sdp)
    ensures s.Some? ==> r.value.offer == s.value.offer && r.value.candidates == s.value.candidates
  {
    if s.Some? then Some(s.value.(answer := Some(sdp))) else s
  }

  /** `addIceCandidate`: appends to the candidates of an open session, duplicates included. */
  function WithCandidate(s: Option<Session>, c: IceCandidate): (r: Option<Session>)
    ensures r.Some? <==> s.Some?
    ensures s.Some? ==> r.value.candidates == s.value.candidates + [c]
    ensures s.Some? ==> r.value.offer == s.value.offer && r.value.answer == s.value.answer
  {
    if s.Some? then Some(s.value.(candidates := s.value.candidates + [c])) else s
  }

  /** No session holds an answer without an offer. */
  predicate WellFormed(s: Option<Session>) {
    s.Some? ==> (s.value.answer.Some? ==> s.value.offer.Some?)
  }

  /** Every write except an answer written where no offer is keeps the store well formed. */
  lemma WritesKeepWellFormed(s: Option<Session>, sdp: string, c: IceCandidate)
    requires WellFormed(s)
    ensures WellFormed(Started(s)) && WellFormed(WithOffer(s, sdp)) && WellFormed(WithCandidate(s, c))
    ensures s.Some? && s.value.offer.Some? ==> WellFormed(WithAnswer(s, sdp))
    ensures s.Some? && s.value.offer.None? ==> !WellFormed(WithAnswer(s, sdp))
  {
  }

  /** The store: one slot per room; this model follows the one room the panel is in. */
  class Store {
    var session: Option<Session>

    constructor ()
      ensures session.None?
    {
      session := None;
    }

    method Start()
      modifies this
      ensures session == Started(old(session))
    {
      session := Started(session);
    }

    /** `endVoiceSession`: offer, answer and every candidate are gone. */
    method End()
      modifies this
      ensures session.None?
    {
      session := None;
    }

    method SetOffer(sdp: string)
      modifies this
      ensures session == WithOffer(old(session), sdp)
    {
      session := WithOffer(session, sdp);
    }

    method SetAnswer(sdp: string)
      modifies this
      ensures session == WithAnswer(old(session), sdp)
    {
      session := WithAnswer(session, sdp);
    }

    method AddCandidate(c: IceCandidate)
      modifies this
      ensures session == WithCandidate(old(session), c)
    {
      session := WithCandidate(session, c);
    }
  }
}
