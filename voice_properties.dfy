/**
 * What the voice panel's steps amount to, stated over the call sequences and
 * store updates that `VoicePanel` specifies them by: the four ways the
 * signalling departs from an idealised offer/answer relay (RFC 3264,
 * sections 5 and 6), and what a failed join releases.
 */
module VoiceProperties {
  import opened Wrappers
  import opened Text
  import opened SignalingStore
  import opened VoicePanel

  // ---------------------------------------------------------------- join

  /** The try-block never releases and never ends the session. */
  lemma TryCallsRelease(env: JoinEnv)
    ensures StopTracks !in TryCalls(env) && ClosePeer !in TryCalls(env) && EndSession !in TryCalls(env)
    ensures forall c :: c in TryCalls(env) ==> !c.SetRemoteDescription? && !c.SendAnswer?
  {
  }

  /**
   * Whichever step fails, a failed join stops the tracks exactly when the
   * microphone was captured and closes the connection exactly when it was
   * opened; no join ever ends the store session.
   */
  lemma FailedJoinReleases(env: JoinEnv)
    ensures EndSession !in JoinCalls(env)
    ensures !JoinSucceeds(env) ==> (StopTracks in JoinCalls(env) <==> Captured(env))
    ensures !JoinSucceeds(env) ==> (ClosePeer in JoinCalls(env) <==> Connected(env))
    ensures JoinSucceeds(env) ==> StopTracks !in JoinCalls(env) && ClosePeer !in JoinCalls(env)
  {
    TryCallsRelease(env);
    var rel := ReleaseCalls(if Captured(env) then Some(env.stream) else None,
                            if Connected(env) then Some(env.conn) else None);
    assert JoinCalls(env) == TryCalls(env) + (if JoinSucceeds(env) then [] else rel);
  }

  /** A join publishes its offer iff every earlier step succeeded and the offer's SDP is non-empty. */
  lemma JoinSendsOfferIff(env: JoinEnv, sdp: string)
    ensures SendOffer(sdp) in JoinCalls(env) <==> LocalSet(env) && env.offerSdp != "" && sdp == env.offerSdp
  {
    FailedJoinReleases(env);
    var rel := ReleaseCalls(if Captured(env) then Some(env.stream) else None,
                            if Connected(env) then Some(env.conn) else None);
    assert JoinCalls(env) == TryCalls(env) + (if JoinSucceeds(env) then [] else rel);
  }

  /**
   * Every join publishes an offer: whatever the store holds, a join whose
   * offer is sent leaves that offer in the store. An existing session keeps
   * its answer and candidates, so a second join overwrites the first offer
   * under the first answer.
   */
  lemma EveryJoinPublishesOffer(s: Option<Session>, env: JoinEnv)
    requires JoinSucceeds(env) && env.offerSdp != ""
    ensures var r := JoinStore(s, env);
      r.Some? && r.value.offer == Some(env.offerSdp)
    ensures s.Some? ==> JoinStore(s, env).value.answer == s.value.answer
    ensures s.Some? ==> JoinStore(s, env).value.candidates == s.value.candidates
    ensures s.None? ==> JoinStore(s, env).value.answer.None?
  {
  }

  /** A join whose send-offer does not run or fails leaves the offer as it was. */
  lemma JoinWithoutOfferKeepsOffer(s: Option<Session>, env: JoinEnv)
    requires !OfferSent(env)
    ensures s.Some? ==> JoinStore(s, env) == s
    ensures s.None? && SessionStarted(env) ==> JoinStore(s, env) == Some(Empty)
    ensures s.None? && !SessionStarted(env) ==> JoinStore(s, env).None?
  {
  }

  // ---------------------------------------------------------------- the pass

  lemma {:induction false} CandidateCallsKinds(cs: seq<IceCandidate>, outcomes: nat -> Step)
    ensures forall c :: c in CandidateCalls(cs, outcomes) ==> c.AddIceCandidate? || c == WarnCandidate
  {
    if cs != [] {
      CandidateCallsKinds(cs[..|cs| - 1], outcomes);
    }
  }

  /** A pass does nothing when not joined, without a snapshot, or without a held connection. */
  lemma InertPass(joined: bool, conn: Option<PeerConnection>, snapshot: Option<Session>,
                  env: AnswerEnv, outcomes: nat -> Step)
    requires !joined || snapshot.None? || conn.None?
    ensures PassCalls(joined, conn, snapshot, env, outcomes) == []
    ensures PassAnswer(joined, conn, snapshot, env).None?
  {
  }

  /**
   * Any unanswered offer gets answered: a pass publishes answer `a` iff the
   * panel is joined, the snapshot holds a set offer and no answer, a
   * connection is held, the answer branch's steps succeed up to sending, the
   * generated SDP is non-empty and equals `a`. Nothing about who wrote the
   * offer enters the condition.
   */
  lemma AnswerSentIff(joined: bool, conn: Option<PeerConnection>, snapshot: Option<Session>,
                      env: AnswerEnv, outcomes: nat -> Step, a: string)
    ensures SendAnswer(a) in PassCalls(joined, conn, snapshot, env, outcomes) <==>
      joined && snapshot.Some? && ShouldAnswer(snapshot.value, conn)
      && env.setRemote.Ok? && env.createAnswer.Ok? && env.setLocal.Ok?
      && env.answerSdp != "" && a == env.answerSdp
  {
    if joined && snapshot.Some? {
      var snap := snapshot.value;
      CandidateCallsKinds(snap.candidates, outcomes);
      var cand := if conn.Some? then CandidateCalls(snap.candidates, outcomes) else [];
      assert SendAnswer(a) !in cand;
      if ShouldAnswer(snap, conn) && AnswerCompletes(env) {
        assert PassCalls(joined, conn, snapshot, env, outcomes) == AnswerCalls(snap.offer.value, env) + cand;
      } else if !ShouldAnswer(snap, conn) {
        assert PassCalls(joined, conn, snapshot, env, outcomes) == [] + cand;
      }
    }
  }

  /** The store receives an answer exactly when the pass sends one and sending succeeds. */
  lemma AnswerStoredIff(joined: bool, conn: Option<PeerConnection>, snapshot: Option<Session>,
                        env: AnswerEnv, outcomes: nat -> Step)
    ensures PassAnswer(joined, conn, snapshot, env).Some? <==>
      SendAnswer(env.answerSdp) in PassCalls(joined, conn, snapshot, env, outcomes) && env.sendAnswer.Ok?
  {
    AnswerSentIff(joined, conn, snapshot, env, outcomes, env.answerSdp);
  }

  /**
   * Answers are never applied: no join or pass ever hands an answer to the
   * connection. The only remote description a pass sets is the snapshot's
   * offer, and a join sets none.
   */
  lemma AnswerNeverApplied(joinEnv: JoinEnv, joined: bool, conn: Option<PeerConnection>,
                           snapshot: Option<Session>, env: AnswerEnv, outcomes: nat -> Step)
    ensures forall c :: c in JoinCalls(joinEnv) ==> !c.SetRemoteDescription?
    ensures forall c :: c in PassCalls(joined, conn, snapshot, env, outcomes) && c.SetRemoteDescription? ==>
      snapshot.Some? && snapshot.value.offer == Some(c.sdp)
  {
    TryCallsRelease(joinEnv);
    var rel := ReleaseCalls(if Captured(joinEnv) then Some(joinEnv.stream) else None,
                            if Connected(joinEnv) then Some(joinEnv.conn) else None);
    assert JoinCalls(joinEnv) == TryCalls(joinEnv) + (if JoinSucceeds(joinEnv) then [] else rel);
    if joined && snapshot.Some? {
      CandidateCallsKinds(snapshot.value.candidates, outcomes);
    }
  }

  /** The content of a stored answer never matters: two non-empty answers give the same pass. */
  lemma AnswerContentIgnored(joined: bool, conn: Option<PeerConnection>, snap: Session,
                             x: string, y: string, env: AnswerEnv, outcomes: nat -> Step)
    requires x != "" && y != ""
    ensures PassCalls(joined, conn, Some(snap.(answer := Some(x))), env, outcomes)
         == PassCalls(joined, conn, Some(snap.(answer := Some(y))), env, outcomes)
    ensures PassAnswer(joined, conn, Some(snap.(answer := Some(x))), env).None?
  {
  }

  /** `Applied` distributes over concatenation. */
  lemma {:induction false} AppliedAppend(a: seq<Call>, b: seq<Call>)
    ensures Applied(a + b) == Applied(a) + Applied(b)
    decreases |b|
  {
    if b == [] {
      assert a + b == a;
    } else {
      var n := |b| - 1;
      assert (a + b)[..|a + b| - 1] == a + b[..n];
      AppliedAppend(a, b[..n]);
    }
  }

  /** A call sequence without candidate calls applies nothing. */
  lemma {:induction false} AppliedNone(a: seq<Call>)
    requires forall c :: c in a ==> !c.AddIceCandidate?
    ensures Applied(a) == []
  {
    if a != [] {
      assert a[|a| - 1] in a;
      AppliedNone(a[..|a| - 1]);
    }
  }

  /** One candidate's calls apply that candidate once, whether it fails or not. */
  lemma AppliedOne(c: IceCandidate, outcome: Step)
    ensures Applied(ApplyCalls(c, outcome)) == [c]
  {
    var warn := if outcome.Fails? then [WarnCandidate] else [];
    assert ApplyCalls(c, outcome) == [AddIceCandidate(c)] + warn;
    AppliedAppend([AddIceCandidate(c)], warn);
    AppliedNone(warn);
    assert [AddIceCandidate(c)][..0] == [];
  }

  /** The candidate loop applies exactly the snapshot's candidates, in list order, failures included. */
  lemma {:induction false} CandidateLoopAppliesAll(cs: seq<IceCandidate>, outcomes: nat -> Step)
    ensures Applied(CandidateCalls(cs, outcomes)) == cs
  {
    if cs != [] {
      var n := |cs| - 1;
      CandidateLoopAppliesAll(cs[..n], outcomes);
      AppliedAppend(CandidateCalls(cs[..n], outcomes), ApplyCalls(cs[n], outcomes(n)));
      AppliedOne(cs[n], outcomes(n));
      assert cs[..n] + [cs[n]] == cs;
    }
  }

  lemma AnswerCallsApplyNothing(offer: string, env: AnswerEnv)
    ensures Applied(AnswerCalls(offer, env)) == []
  {
    AppliedNone(AnswerCalls(offer, env));
  }

  /**
   * Candidates are re-applied on every pass: a pass by a joined panel with a
   * connection, whose answer branch does not abort, applies the snapshot's
   * whole candidate list, whatever earlier passes applied.
   */
  lemma PassAppliesAllCandidates(conn: Option<PeerConnection>, snap: Session,
                                 env: AnswerEnv, outcomes: nat -> Step)
    requires conn.Some?
    requires !ShouldAnswer(snap, conn) || AnswerCompletes(env)
    ensures Applied(PassCalls(true, conn, Some(snap), env, outcomes)) == snap.candidates
  {
    var ans := if ShouldAnswer(snap, conn) then AnswerCalls(snap.offer.value, env) else [];
    assert PassCalls(true, conn, Some(snap), env, outcomes) == ans + CandidateCalls(snap.candidates, outcomes);
    AppliedAppend(ans, CandidateCalls(snap.candidates, outcomes));
    CandidateLoopAppliesAll(snap.candidates, outcomes);
    if ShouldAnswer(snap, conn) {
      AnswerCallsApplyNothing(snap.offer.value, env);
    } else {
      assert Applied(ans) == [];
    }
  }

  /** Two passes over the same snapshot apply every candidate twice. */
  lemma RepeatedPassesReapply(log: seq<Call>, conn: Option<PeerConnection>, snap: Session,
                              env: AnswerEnv, outcomes: nat -> Step)
    requires conn.Some? && !ShouldAnswer(snap, conn)
    ensures var p := PassCalls(true, conn, Some(snap), env, outcomes);
      Applied(log + p + p) == Applied(log) + snap.candidates + snap.candidates
  {
    var p := PassCalls(true, conn, Some(snap), env, outcomes);
    PassAppliesAllCandidates(conn, snap, env, outcomes);
    AppliedAppend(log + p, p);
    AppliedAppend(log, p);
  }

  // ---------------------------------------------------------------- scenarios

  /**
   * A panel answers its own offer: after a join on an empty store whose offer
   * is sent, the joiner's own pass over the store's state sends an answer to it.
   */
  lemma OwnOfferAnswered(env: JoinEnv, aenv: AnswerEnv, outcomes: nat -> Step)
    requires JoinSucceeds(env) && env.offerSdp != ""
    requires AnswerCompletes(aenv) && aenv.answerSdp != ""
    ensures var s := JoinStore(None, env);
      SendAnswer(aenv.answerSdp) in PassCalls(true, Some(env.conn), s, aenv, outcomes)
      && PassAnswer(true, Some(env.conn), s, aenv) == Some(aenv.answerSdp)
    ensures var s := JoinStore(None, env);
      SetRemoteDescription(env.offerSdp) in PassCalls(true, Some(env.conn), s, aenv, outcomes)
  {
    var s := JoinStore(None, env);
    assert s == Some(Session(Some(env.offerSdp), None, []));
    AnswerSentIff(true, Some(env.conn), s, aenv, outcomes, aenv.answerSdp);
    assert PassCalls(true, Some(env.conn), s, aenv, outcomes)
        == AnswerCalls(env.offerSdp, aenv) + CandidateCalls([], outcomes);
  }

  /**
   * Once a session holds an answer, a later join's offer replaces the offer
   * but not the answer, so no panel's pass ever answers the new offer.
   */
  lemma LaterOfferNeverAnswered(s: Option<Session>, env: JoinEnv, joined: bool,
                                conn: Option<PeerConnection>, aenv: AnswerEnv, outcomes: nat -> Step)
    requires s.Some? && Truthy(s.value.answer)
    requires JoinSucceeds(env) && env.offerSdp != ""
    ensures JoinStore(s, env).value.offer == Some(env.offerSdp)
    ensures PassAnswer(joined, conn, JoinStore(s, env), aenv).None?
    ensures forall a :: SendAnswer(a) !in PassCalls(joined, conn, JoinStore(s, env), aenv, outcomes)
  {
    forall a ensures SendAnswer(a) !in PassCalls(joined, conn, JoinStore(s, env), aenv, outcomes) {
      AnswerSentIff(joined, conn, JoinStore(s, env), aenv, outcomes, a);
    }
  }
}
