/**
 * The voice-call panel of a chat room: four pieces of UI state, two owned
 * handles (the captured microphone stream and the peer connection) and the
 * steps that drive them: join, leave, mute toggle, retry, unmount, the ICE
 * candidate callback and the signalling pass run on every polled snapshot.
 *
 * The media device, the peer connection and the store are reached only
 * through calls. Every call the panel issues is appended to `calls`, in
 * order, and the outcome of each fallible call is a parameter: `Ok` or a
 * failure carrying the error's `name`. SDP and candidate strings are opaque.
 */
module VoicePanel {
  import opened Wrappers
  import opened Text
  import opened SignalingStore

  /** A thrown error, reduced to its `name` property. */
  datatype Fault = Fault(name: string)

  /** The outcome of one awaited platform or store call. */
  datatype Step = Ok | Fails(fault: Fault)

  datatype TrackKind = Audio | Video
  datatype Track = Track(kind: TrackKind, enabled: bool)

  /** A captured stream; `id` stands for object identity. */
  datatype MediaStream = MediaStream(id: nat, tracks: seq<Track>)

  /** A peer connection, opaque but for its identity. */
  datatype PeerConnection = PeerConnection(id: nat)

  /** The calls the panel issues, in the order it issues them. */
  datatype Call =
    | CaptureAudio                      // getUserMedia({audio: true})
    | OpenConnection                    // new RTCPeerConnection(...)
    | AddTracks                         // addTrack for each local track
    | StartSession                      // store: startVoiceSession
    | CreateOffer
    | SetLocalDescription(sdp: string)
    | SendOffer(sdp: string)            // store: sendSdpOffer
    | SetRemoteDescription(sdp: string)
    | CreateAnswer
    | SendAnswer(sdp: string)           // store: sendSdpAnswer
    | AddIceCandidate(candidate: IceCandidate)
    | WarnCandidate                     // a failed candidate is logged and skipped
    | SignalingError                    // a failure in the answer branch is logged and ends the pass
    | PublishCandidate(candidate: IceCandidate)  // store: addIceCandidate
    | StopTracks
    | ClosePeer
    | EndSession                        // store: endVoiceSession

  const PermissionMessage := "Microphone permission denied. Please allow microphone access to use voice chat."
  const NoMicrophoneMessage := "No microphone found. Please connect a microphone to use voice chat."
  const JoinFailedMessage := "Failed to join voice chat. Please try again."
  const LeaveFailedMessage := "Failed to leave voice chat. Please try again."

  // ---------------------------------------------------------------- join

  /**
   * What the platform and the store do during one join: the outcome of each
   * awaited call, the stream and connection they hand back, and the SDP of
   * the created offer.
   */
  datatype JoinEnv = JoinEnv(
    capture: Step, stream: MediaStream,
    connect: Step, conn: PeerConnection,
    addTracks: Step,
    start: Step,
    createOffer: Step, offerSdp: string,
    setLocal: Step,
    sendOffer: Step)

  predicate Captured(env: JoinEnv) { env.capture.Ok? }
  predicate Connected(env: JoinEnv) { Captured(env) && env.connect.Ok? }
  predicate TracksAdded(env: JoinEnv) { Connected(env) && env.addTracks.Ok? }
  predicate SessionStarted(env: JoinEnv) { TracksAdded(env) && env.start.Ok? }
  predicate OfferCreated(env: JoinEnv) { SessionStarted(env) && env.createOffer.Ok? }
  predicate LocalSet(env: JoinEnv) { OfferCreated(env) && env.setLocal.Ok? }
  /** The offer reaches the store only when its SDP is non-empty. */
  predicate OfferSent(env: JoinEnv) { LocalSet(env) && env.offerSdp != "" && env.sendOffer.Ok? }
  predicate JoinSucceeds(env: JoinEnv) { LocalSet(env) && (env.offerSdp == "" || env.sendOffer.Ok?) }

  /** The error the join's try-block throws: the first failing awaited call. */
  function FirstFault(env: JoinEnv): (r: Option<Fault>)
    ensures r.None? <==> JoinSucceeds(env)
    ensures !Captured(env) ==> r == Some(env.capture.fault)
    ensures LocalSet(env) && !JoinSucceeds(env) ==> r == Some(env.sendOffer.fault)
  {
    if env.capture.Fails? then Some(env.capture.fault)
    else if env.connect.Fails? then Some(env.connect.fault)
    else if env.addTracks.Fails? then Some(env.addTracks.fault)
    else if env.start.Fails? then Some(env.start.fault)
    else if env.createOffer.Fails? then Some(env.createOffer.fault)
    else if env.setLocal.Fails? then Some(env.setLocal.fault)
    else if env.offerSdp != "" && env.sendOffer.Fails? then Some(env.sendOffer.fault)
    else None
  }

  predicate IsPermissionFault(f: Fault) {
    f.name == "NotAllowedError" || f.name == "PermissionDeniedError"
  }

  /** The message a failed join shows, chosen by the error's name. */
  function JoinErrorMessage(f: Fault): (r: string)
    ensures r == PermissionMessage <==> IsPermissionFault(f)
    ensures r == NoMicrophoneMessage <==> f.name == "NotFoundError"
    ensures r == JoinFailedMessage <==> !IsPermissionFault(f) && f.name != "NotFoundError"
  {
    if IsPermissionFault(f) then PermissionMessage
    else if f.name == "NotFoundError" then NoMicrophoneMessage
    else JoinFailedMessage
  }

  /** Releasing the handles: stop the tracks if a stream is held, close the connection if one is held. */
  function ReleaseCalls(stream: Option<MediaStream>, conn: Option<PeerConnection>): (r: seq<Call>)
    ensures StopTracks in r <==> stream.Some?
    ensures ClosePeer in r <==> conn.Some?
    ensures |r| <= 2 && EndSession !in r
  {
    (if stream.Some? then [StopTracks] else []) + (if conn.Some? then [ClosePeer] else [])
  }

  /** The calls of the try-block's first three steps, up to and including the first that fails. */
  function AcquireCalls(env: JoinEnv): seq<Call> {
    [CaptureAudio]
    + (if Captured(env) then [OpenConnection] else [])
    + (if Connected(env) then [AddTracks] else [])
  }

  /** The calls of the try-block's remaining steps, once the tracks are added. */
  function NegotiateCalls(env: JoinEnv): seq<Call> {
    [StartSession]
    + (if SessionStarted(env) then [CreateOffer] else [])
    + (if OfferCreated(env) then [SetLocalDescription(env.offerSdp)] else [])
    + (if LocalSet(env) && env.offerSdp != "" then [SendOffer(env.offerSdp)] else [])
  }

  /** The calls of the join's try-block, up to and including the first that fails. */
  function TryCalls(env: JoinEnv): seq<Call> {
    AcquireCalls(env) + (if TracksAdded(env) then NegotiateCalls(env) else [])
  }

  /** Every call of one join: the try-block, then on failure the release of whatever was acquired. */
  function JoinCalls(env: JoinEnv): seq<Call> {
    TryCalls(env)
    + (if JoinSucceeds(env) then []
       else ReleaseCalls(if Captured(env) then Some(env.stream) else None,
                         if Connected(env) then Some(env.conn) else None))
  }

  /** The store after one join: started once start-session succeeds, offer written once send-offer succeeds. */
  function JoinStore(s: Option<Session>, env: JoinEnv): Option<Session> {
    var started := if SessionStarted(env) then Started(s) else s;
    if OfferSent(env) then WithOffer(started, env.offerSdp) else started
  }

  /** A freshly captured stream: every track is live and enabled. */
  predicate FreshCapture(m: MediaStream) {
    forall i :: 0 <= i < |m.tracks| ==> m.tracks[i].enabled
  }

  // ---------------------------------------------------------------- mute

  /** `getAudioTracks()[0]`: the index of the first audio track, if any. */
  function FirstAudio(ts: seq<Track>): (r: Option<nat>)
    ensures r.Some? ==> r.value < |ts| && ts[r.value].kind == Audio
    ensures r.Some? ==> forall j :: 0 <= j < r.value ==> ts[j].kind != Audio
    ensures r.None? ==> forall j :: 0 <= j < |ts| ==> ts[j].kind != Audio
  {
    if ts == [] then None
    else if ts[0].kind == Audio then Some(0)
    else
      var rest := FirstAudio(ts[1..]);
      if rest.Some? then Some(rest.value + 1) else None
  }

  /** The panel's notion of muted: the first audio track exists and is disabled. */
  predicate Muted(m: MediaStream) {
    var a := FirstAudio(m.tracks);
    a.Some? && !m.tracks[a.value].enabled
  }

  /** The stream after flipping `enabled` on its first audio track (unchanged without one). */
  function ToggleFirstAudio(m: MediaStream): (r: MediaStream)
    ensures r.id == m.id && |r.tracks| == |m.tracks|
    ensures FirstAudio(m.tracks).None? ==> r == m
    ensures forall i :: 0 <= i < |m.tracks| && Some(i) != FirstAudio(m.tracks) ==> r.tracks[i] == m.tracks[i]
    ensures forall i :: 0 <= i < |m.tracks| ==> r.tracks[i].kind == m.tracks[i].kind
  {
    var a := FirstAudio(m.tracks);
    if a.None? then m
    else
      var t := m.tracks[a.value];
      m.(tracks := m.tracks[a.value := t.(enabled := !t.enabled)])
  }

  /** Toggling flips the muted reading whenever the stream has an audio track. */
  lemma ToggleFlipsMuted(m: MediaStream)
    requires FirstAudio(m.tracks).Some?
    ensures FirstAudio(ToggleFirstAudio(m).tracks) == FirstAudio(m.tracks)
    ensures Muted(ToggleFirstAudio(m)) == !Muted(m)
  {
    FirstAudioByKinds(m.tracks, ToggleFirstAudio(m).tracks);
  }

  /** Toggling twice gives back the stream. */
  lemma ToggleTwice(m: MediaStream)
    ensures ToggleFirstAudio(ToggleFirstAudio(m)) == m
  {
    var t := ToggleFirstAudio(m);
    FirstAudioByKinds(m.tracks, t.tracks);
    if FirstAudio(m.tracks).Some? {
      assert ToggleFirstAudio(t).tracks == m.tracks;
    }
  }

  /** The first audio track depends only on the kinds of the tracks. */
  lemma {:induction false} FirstAudioByKinds(ts: seq<Track>, us: seq<Track>)
    requires |ts| == |us|
    requires forall i :: 0 <= i < |ts| ==> ts[i].kind == us[i].kind
    ensures FirstAudio(ts) == FirstAudio(us)
  {
    if ts != [] && ts[0].kind != Audio {
      FirstAudioByKinds(ts[1..], us[1..]);
    }
  }

  /** A fresh capture never reads as muted. */
  lemma FreshIsUnmuted(m: MediaStream)
    requires FreshCapture(m)
    ensures !Muted(m)
  {
  }

  // ---------------------------------------------------------------- ICE callback

  /** An `icecandidate` event: the end-of-candidates marker, or a candidate with optional fields. */
  datatype IceEvent = EndOfCandidates | Discovered(candidate: Option<string>, lineIndex: Option<nat>)

  /** The record the callback publishes: `candidate || ''` and `sdpMLineIndex || 0`. */
  function Published(e: IceEvent): (r: IceCandidate)
    requires e.Discovered?
    ensures r.candidate == "" <==> !Truthy(e.candidate)
    ensures Truthy(e.candidate) ==> r.candidate == e.candidate.value
    ensures e.lineIndex.None? ==> r.lineIndex == 0
    ensures e.lineIndex.Some? ==> r.lineIndex == e.lineIndex.value
  {
    IceCandidate(Or(e.candidate, ""), e.lineIndex.GetOr(0))
  }

  // ---------------------------------------------------------------- signalling pass

  /** What the platform and the store do while answering an offer. */
  datatype AnswerEnv = AnswerEnv(
    setRemote: Step, createAnswer: Step, answerSdp: string, setLocal: Step, sendAnswer: Step)

  /** The answer branch runs on a set offer, an unset answer and a held connection; nothing checks who wrote the offer. */
  predicate ShouldAnswer(snap: Session, conn: Option<PeerConnection>) {
    Truthy(snap.offer) && !Truthy(snap.answer) && conn.Some?
  }

  /** Every awaited call of the answer branch succeeds; an answer with empty SDP is not sent, which is no failure. */
  predicate AnswerCompletes(env: AnswerEnv) {
    env.setRemote.Ok? && env.createAnswer.Ok? && env.setLocal.Ok?
    && (env.answerSdp == "" || env.sendAnswer.Ok?)
  }

  /** The calls of the answer branch, up to and including the first that fails. */
  function AnswerCalls(offer: string, env: AnswerEnv): seq<Call> {
    [SetRemoteDescription(offer)]
    + (if env.setRemote.Ok? then [CreateAnswer] else [])
    + (if env.setRemote.Ok? && env.createAnswer.Ok? then [SetLocalDescription(env.answerSdp)] else [])
    + (if env.setRemote.Ok? && env.createAnswer.Ok? && env.setLocal.Ok? && env.answerSdp != ""
       then [SendAnswer(env.answerSdp)] else [])
  }

  /** The calls for one candidate: the attempt, and a logged warning when it fails. */
  function ApplyCalls(c: IceCandidate, outcome: Step): seq<Call> {
    [AddIceCandidate(c)] + (if outcome.Fails? then [WarnCandidate] else [])
  }

  /** The candidate loop: every candidate in list order; `outcomes(i)` is the result of the i-th attempt. */
  function CandidateCalls(cs: seq<IceCandidate>, outcomes: nat -> Step): seq<Call>
  {
    if cs == [] then []
    else CandidateCalls(cs[..|cs| - 1], outcomes) + ApplyCalls(cs[|cs| - 1], outcomes(|cs| - 1))
  }

  /** Every call of one signalling pass over a snapshot. */
  function PassCalls(joined: bool, conn: Option<PeerConnection>, snapshot: Option<Session>,
                     env: AnswerEnv, outcomes: nat -> Step): seq<Call>
  {
    if !joined || snapshot.None? then []
    else
      var snap := snapshot.value;
      if ShouldAnswer(snap, conn) && !AnswerCompletes(env) then AnswerCalls(snap.offer.value, env) + [SignalingError]
      else
        (if ShouldAnswer(snap, conn) then AnswerCalls(snap.offer.value, env) else [])
        + (if conn.Some? then CandidateCalls(snap.candidates, outcomes) else [])
  }

  /** The answer a pass writes to the store, if any. */
  function PassAnswer(joined: bool, conn: Option<PeerConnection>, snapshot: Option<Session>,
                      env: AnswerEnv): Option<string>
  {
    if joined && snapshot.Some? && ShouldAnswer(snapshot.value, conn) && AnswerCompletes(env)
       && env.answerSdp != ""
    then Some(env.answerSdp) else None
  }

  /** The room the session query polls: the panel's room while joined, none otherwise. */
  function PolledRoom(joined: bool, roomId: string): (r: Option<string>)
    ensures r.Some? <==> joined
    ensures r.Some? ==> r.value == roomId
  {
    if joined then Some(roomId) else None
  }

  /** The candidates a call sequence applies to the connection, in order. */
  function Applied(cs: seq<Call>): seq<IceCandidate> {
    if cs == [] then []
    else Applied(cs[..|cs| - 1]) + (if cs[|cs| - 1].AddIceCandidate? then [cs[|cs| - 1].candidate] else [])
  }

  // ---------------------------------------------------------------- the panel

  class Panel {
    const roomId: string
    var isJoined: bool
    var isMuted: bool
    var error: Option<string>
    var micPermissionDenied: bool
    var localStream: Option<MediaStream>
    var peerConnection: Option<PeerConnection>
    /** Every platform and store call issued so far, oldest first. */
    var calls: seq<Call>

    /**
     * The handles are held together and only while joined; a denied
     * microphone means not joined; muted means joined, and while a stream is
     * held `isMuted` agrees with its first audio track.
     */
    predicate Valid()
      reads this
    {
      && (localStream.Some? <==> peerConnection.Some?)
      && (localStream.Some? ==> isJoined)
      && (micPermissionDenied ==> !isJoined)
      && (isMuted ==> isJoined)
      && (localStream.Some? ==> isMuted == Muted(localStream.value))
    }

    constructor (roomId: string)
      ensures Valid()
      ensures this.roomId == roomId
      ensures !isJoined && !isMuted && error.None? && !micPermissionDenied
      ensures localStream.None? && peerConnection.None? && calls == []
    {
      this.roomId := roomId;
      isJoined := false;
      isMuted := false;
      error := None;
      micPermissionDenied := false;
      localStream := None;
      peerConnection := None;
      calls := [];
    }

    /** `handleJoin`; the Join button is offered only while not joined. */
    method Join(store: Store, env: JoinEnv)
      requires Valid() && !isJoined && FreshCapture(env.stream)
      modifies this, store
      ensures Valid()
      ensures calls == old(calls) + JoinCalls(env)
      ensures store.session == JoinStore(old(store.session), env)
      ensures isMuted == old(isMuted)
      ensures JoinSucceeds(env) ==>
        isJoined && error.None? && !micPermissionDenied
        && localStream == Some(env.stream) && peerConnection == Some(env.conn)
      ensures !JoinSucceeds(env) ==>
        !isJoined && localStream.None? && peerConnection.None?
        && error == Some(JoinErrorMessage(FirstFault(env).value))
        && micPermissionDenied == IsPermissionFault(FirstFault(env).value)
    {
      error := None;
      micPermissionDenied := false;
      ghost var before := calls;
      var failed := Acquire(env);
      if failed.None? {
        ghost var acquired := calls;
        failed := Negotiate(store, env);
        assert calls == before + TryCalls(env) by {
          assert acquired + NegotiateCalls(env) == before + (AcquireCalls(env) + NegotiateCalls(env));
        }
      } else {
        assert !SessionStarted(env);
        assert calls == before + TryCalls(env) by {
          assert AcquireCalls(env) + [] == AcquireCalls(env);
        }
      }
      if failed.None? {
        isJoined := true;
      } else {
        ghost var tried := calls;
        ghost var release := ReleaseCalls(localStream, peerConnection);
        Catch(failed.value);
        assert tried + release == before + (TryCalls(env) + release);
      }
    }

    /** The first three steps of the join: capture the microphone, open the connection, add the tracks. */
    method Acquire(env: JoinEnv) returns (failed: Option<Fault>)
      requires localStream.None? && peerConnection.None?
      modifies this
      ensures failed.None? <==> TracksAdded(env)
      ensures failed.Some? ==> failed == FirstFault(env)
      ensures calls == old(calls) + AcquireCalls(env)
      ensures localStream == (if Captured(env) then Some(env.stream) else None)
      ensures peerConnection == (if Connected(env) then Some(env.conn) else None)
      ensures isJoined == old(isJoined) && isMuted == old(isMuted) && error == old(error)
      ensures micPermissionDenied == old(micPermissionDenied)
    {
      calls := calls + [CaptureAudio];
      if env.capture.Fails? {
        return Some(env.capture.fault);
      }
      localStream := Some(env.stream);
      calls := calls + [OpenConnection];
      if env.connect.Fails? {
        return Some(env.connect.fault);
      }
      peerConnection := Some(env.conn);
      calls := calls + [AddTracks];
      if env.addTracks.Fails? {
        return Some(env.addTracks.fault);
      }
      return None;
    }

    /** The rest of the join: start the session, create and set the offer, publish it when its SDP is non-empty. */
    method Negotiate(store: Store, env: JoinEnv) returns (failed: Option<Fault>)
      requires TracksAdded(env)
      modifies this, store
      ensures failed == FirstFault(env)
      ensures calls == old(calls) + NegotiateCalls(env)
      ensures store.session == JoinStore(old(store.session), env)
      ensures isJoined == old(isJoined) && isMuted == old(isMuted) && error == old(error)
      ensures micPermissionDenied == old(micPermissionDenied)
      ensures localStream == old(localStream) && peerConnection == old(peerConnection)
    {
      calls := calls + [StartSession];
      if env.start.Fails? {
        return Some(env.start.fault);
      }
      store.Start();
      calls := calls + [CreateOffer];
      if env.createOffer.Fails? {
        return Some(env.createOffer.fault);
      }
      calls := calls + [SetLocalDescription(env.offerSdp)];
      if env.setLocal.Fails? {
        return Some(env.setLocal.fault);
      }
      if env.offerSdp != "" {
        calls := calls + [SendOffer(env.offerSdp)];
        if env.sendOffer.Fails? {
          return Some(env.sendOffer.fault);
        }
        store.SetOffer(env.offerSdp);
      }
      return None;
    }

    /** The join's catch block: set the error by the fault's name, then release whatever is held. */
    method Catch(f: Fault)
      modifies this
      ensures error == Some(JoinErrorMessage(f))
      ensures micPermissionDenied == (IsPermissionFault(f) || old(micPermissionDenied))
      ensures localStream.None? && peerConnection.None?
      ensures calls == old(calls) + ReleaseCalls(old(localStream), old(peerConnection))
      ensures isJoined == old(isJoined) && isMuted == old(isMuted)
    {
      if f.name == "NotAllowedError" || f.name == "PermissionDeniedError" {
        micPermissionDenied := true;
        error := Some(PermissionMessage);
      } else if f.name == "NotFoundError" {
        error := Some(NoMicrophoneMessage);
      } else {
        error := Some(JoinFailedMessage);
      }
      if localStream.Some? {
        calls := calls + [StopTracks];
        localStream := None;
      }
      if peerConnection.Some? {
        calls := calls + [ClosePeer];
        peerConnection := None;
      }
    }

    /** `handleLeave`; the Leave button is offered only while joined. */
    method Leave(store: Store, end: Step)
      requires Valid() && isJoined
      modifies this, store
      ensures Valid()
      ensures localStream.None? && peerConnection.None?
      ensures calls == old(calls) + ReleaseCalls(old(localStream), old(peerConnection)) + [EndSession]
      ensures micPermissionDenied == old(micPermissionDenied)
      ensures end.Ok? ==> !isJoined && !isMuted && error.None? && store.session.None?
      ensures end.Fails? ==>
        isJoined && isMuted == old(isMuted) && error == Some(LeaveFailedMessage)
        && store.session == old(store.session)
    {
      if localStream.Some? {
        calls := calls + [StopTracks];
        localStream := None;
      }
      if peerConnection.Some? {
        calls := calls + [ClosePeer];
        peerConnection := None;
      }
      calls := calls + [EndSession];
      if end.Ok? {
        store.End();
        isJoined := false;
        isMuted := false;
        error := None;
      } else {
        error := Some(LeaveFailedMessage);
      }
    }

    /** `handleToggleMute`: flips the first audio track; no store call, no call on the connection. */
    method ToggleMute()
      requires Valid()
      modifies this
      ensures Valid()
      ensures calls == old(calls) && isJoined == old(isJoined) && error == old(error)
      ensures micPermissionDenied == old(micPermissionDenied) && peerConnection == old(peerConnection)
      ensures old(localStream).None? ==> localStream.None? && isMuted == old(isMuted)
      ensures old(localStream).Some? ==> localStream == Some(ToggleFirstAudio(old(localStream).value))
      ensures old(localStream).Some? && FirstAudio(old(localStream).value.tracks).Some? ==>
        isMuted == !old(isMuted)
      ensures old(localStream).Some? && FirstAudio(old(localStream).value.tracks).None? ==>
        isMuted == old(isMuted)
    {
      if localStream.Some? {
        var m := localStream.value;
        var a := FirstAudio(m.tracks);
        if a.Some? {
          ToggleFlipsMuted(m);
          var toggled := ToggleFirstAudio(m);
          localStream := Some(toggled);
          isMuted := !toggled.tracks[a.value].enabled;
        }
      }
    }

    /** `handleRetry`: clears the error and the permission flag. */
    method Retry()
      requires Valid()
      modifies this
      ensures Valid()
      ensures error.None? && !micPermissionDenied
      ensures isJoined == old(isJoined) && isMuted == old(isMuted) && calls == old(calls)
      ensures localStream == old(localStream) && peerConnection == old(peerConnection)
    {
      error := None;
      micPermissionDenied := false;
    }

    /** The unmount cleanup: stops and closes the handles but never ends the store session. */
    method Unmount(store: Store)
      requires Valid()
      modifies this
      ensures micPermissionDenied == old(micPermissionDenied)
      ensures calls == old(calls) + ReleaseCalls(old(localStream), old(peerConnection))
      ensures store.session == old(store.session)
      ensures isJoined == old(isJoined) && isMuted == old(isMuted) && error == old(error)
      ensures localStream == old(localStream) && peerConnection == old(peerConnection)
    {
      if localStream.Some? {
        calls := calls + [StopTracks];
      }
      if peerConnection.Some? {
        calls := calls + [ClosePeer];
      }
    }

    /** The `onicecandidate` callback of the held connection; the publish is fire-and-forget. */
    method OnIceCandidate(store: Store, e: IceEvent, publish: Step)
      requires Valid() && peerConnection.Some?
      modifies this, store
      ensures micPermissionDenied == old(micPermissionDenied)
      ensures Valid()
      ensures isJoined == old(isJoined) && isMuted == old(isMuted) && error == old(error)
      ensures localStream == old(localStream) && peerConnection == old(peerConnection)
      ensures e.EndOfCandidates? ==> calls == old(calls) && store.session == old(store.session)
      ensures e.Discovered? ==> calls == old(calls) + [PublishCandidate(Published(e))]
      ensures e.Discovered? && publish.Ok? ==> store.session == WithCandidate(old(store.session), Published(e))
      ensures e.Discovered? && publish.Fails? ==> store.session == old(store.session)
    {
      if e.Discovered? {
        var c := IceCandidate(Or(e.candidate, ""), e.lineIndex.GetOr(0));
        calls := calls + [PublishCandidate(c)];
        if publish.Ok? {
          store.AddCandidate(c);
        }
      }
    }

    /**
     * The signalling effect run on a polled snapshot. It answers an unanswered
     * offer (any offer), then tries every candidate of the snapshot, skipping
     * those that fail; a failure in the answer branch is logged as a
     * signalling error and ends the pass.
     */
    method OnSnapshot(store: Store, snapshot: Option<Session>, env: AnswerEnv, outcomes: nat -> Step)
      requires Valid()
      modifies this, store
      ensures Valid()
      ensures isJoined == old(isJoined) && isMuted == old(isMuted) && error == old(error)
      ensures micPermissionDenied == old(micPermissionDenied)
      ensures localStream == old(localStream) && peerConnection == old(peerConnection)
      ensures calls == old(calls) + PassCalls(isJoined, peerConnection, snapshot, env, outcomes)
      ensures var a := PassAnswer(isJoined, peerConnection, snapshot, env);
        store.session == if a.Some? then WithAnswer(old(store.session), a.value) else old(store.session)
    {
      if !isJoined || snapshot.None? {
        return;
      }
      var snap := snapshot.value;
      ghost var before := calls;
      ghost var answering := if ShouldAnswer(snap, peerConnection) then AnswerCalls(snap.offer.value, env) else [];
      if Truthy(snap.offer) && !Truthy(snap.answer) && peerConnection.Some? {
        var completed := Answer(store, snap.offer.value, env);
        if !completed {
          calls := calls + [SignalingError];
          return;
        }
      }
      assert calls == before + answering;
      if peerConnection.Some? {
        ApplyCandidates(snap.candidates, outcomes);
        assert calls == before + (answering + CandidateCalls(snap.candidates, outcomes));
      } else {
        assert calls == before + (answering + []);
      }
    }

    /** The answer branch of a pass: set the offer as remote description, answer, publish a non-empty answer. */
    method Answer(store: Store, offer: string, env: AnswerEnv) returns (completed: bool)
      modifies this, store
      ensures completed == AnswerCompletes(env)
      ensures calls == old(calls) + AnswerCalls(offer, env)
      ensures store.session ==
        if completed && env.answerSdp != "" then WithAnswer(old(store.session), env.answerSdp)
        else old(store.session)
      ensures isJoined == old(isJoined) && isMuted == old(isMuted) && error == old(error)
      ensures micPermissionDenied == old(micPermissionDenied)
      ensures localStream == old(localStream) && peerConnection == old(peerConnection)
    {
      calls := calls + [SetRemoteDescription(offer)];
      if env.setRemote.Fails? {
        return false;
      }
      calls := calls + [CreateAnswer];
      if env.createAnswer.Fails? {
        return false;
      }
      calls := calls + [SetLocalDescription(env.answerSdp)];
      if env.setLocal.Fails? {
        return false;
      }
      if env.answerSdp != "" {
        calls := calls + [SendAnswer(env.answerSdp)];
        if env.sendAnswer.Fails? {
          return false;
        }
        store.SetAnswer(env.answerSdp);
      }
      return true;
    }

    /** The candidate loop of a pass: each candidate in order; a failure is logged and the loop goes on. */
    method ApplyCandidates(cs: seq<IceCandidate>, outcomes: nat -> Step)
      modifies this
      ensures calls == old(calls) + CandidateCalls(cs, outcomes)
      ensures isJoined == old(isJoined) && isMuted == old(isMuted) && error == old(error)
      ensures micPermissionDenied == old(micPermissionDenied)
      ensures localStream == old(localStream) && peerConnection == old(peerConnection)
    {
      var i := 0;
      while i < |cs|
        invariant 0 <= i <= |cs|
        invariant calls == old(calls) + CandidateCalls(cs[..i], outcomes)
        invariant isJoined == old(isJoined) && isMuted == old(isMuted) && error == old(error)
        invariant micPermissionDenied == old(micPermissionDenied)
        invariant localStream == old(localStream) && peerConnection == old(peerConnection)
      {
        assert cs[..i + 1][..i] == cs[..i];
        calls := calls + [AddIceCandidate(cs[i])];
        if outcomes(i).Fails? {
          calls := calls + [WarnCandidate];
        }
        i := i + 1;
      }
      assert cs[..|cs|] == cs;
    }
  }
}
