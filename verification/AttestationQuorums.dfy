/** Who has prepared in a round, and what its two quorums make of it. */
module AttestationQuorums {
  import opened Facts
  import opened JsValues
  import opened AttestationRound
  import opened AttestationSafety
  import opened AttestationVotes
  import opened AttestationOutcomes
  import opened AttestationCounting
  import opened AttestationRuns

  // ------------------------------------------------------- who has prepared

  /** A member's PREPARE the round listens to. */
  predicate Heard(c: Pinned, r: Round, m: Envelope, k: Checks) {
    !r.finalized && m.sender in c.responsible && MapReadable(c, m, k) && k.bodyInCap
  }

  /** An announcement that settles nothing yet: signed, agreeing on the map, and waiting for a second signer. */
  ghost predicate HeldBack(c: Pinned, r: Round, m: Envelope, k: Checks) {
    m.status == "ok" && c.strategy != JudgeModel && SignedByItsSender(c, m, k) && MapAgrees(c, r, m)
  }

  /** A judged winner this hub proposed no body for is settled, and nobody is counted as prepared. */
  predicate Withheld(c: Pinned, r: Round, m: Envelope) {
    m.status == "ok" && c.strategy == JudgeModel && c.me in r.proposals && r.proposals[c.me].body == []
  }

  /** Who joins the prepared members: this hub with an outcome of its own round; the sender of a PREPARE that reaches a settled
      round, settles one or announces a candidate, and this hub where it signs what was settled. */
  ghost predicate Joins(c: Pinned, r: Round, e: Event, t: Round, pk: string) {
    match e
    case Propose(_, _) => false
    case Commit(_, _) => false
    case Agree(_, _) => pk == c.me && Settles(c, r, e).Some?
    case Verdict(_, _) => pk == c.me && Settles(c, r, e).Some?
    case Prepare(m, k, _) =>
      Heard(c, r, m, k) &&
      if r.winner.Some? then pk == m.sender
      else if Settles(c, r, e).None? then pk == m.sender && HeldBack(c, r, m, k)
      else !Withheld(c, r, m) && (pk == m.sender || (pk == c.me && t.winner.Some? && SignsPrepared(c, r, t)))
  }

  ghost predicate PreparesAre(c: Pinned, r: Round, e: Event, t: Round) {
    forall pk :: pk in t.prepares <==> pk in r.prepares || Joins(c, r, e, t, pk)
  }

  lemma QuorumsPrepareNobody(c: Pinned, r: Round, sender: string)
    ensures BroadcastAgreedPrepare(c, r).prepares == r.prepares + {c.me}
    ensures FinishPrepare(c, r, sender).prepares == r.prepares + {sender}
  {
  }

  lemma OkWinnerPrepares(c: Pinned, r: Round, w: Winner, stamp: nat)
    ensures EstablishOkWinner(c, r, w, stamp).prepares == r.prepares + {c.me}
  {
    var s := Settle(c, r, w, "ok", stamp);
    CollectPreparesNobody(c, s);
    QuorumsPrepareNobody(c, CollectOk(c, s), c.me);
  }

  lemma NonOkPrepares(c: Pinned, r: Round, status: string, stamp: nat)
    ensures var t := EstablishNonOkWinner(c, r, status, stamp);
            if Open(r) && status !in r.published then t.prepares == r.prepares + {c.me} else t == r
  {
    var s := Settle(c, r, Winner([], ""), status, stamp);
    CollectPreparesNobody(c, s);
    QuorumsPrepareNobody(c, CollectNonOk(c, s), c.me);
  }

  lemma CollectPreparesNobody(c: Pinned, s: Round)
    requires s.winner.Some?
    ensures CollectOk(c, s).prepares == s.prepares && CollectNonOk(c, s).prepares == s.prepares
  {
  }

  lemma AgreePrepares(c: Pinned, r: Round, hasModule: bool, stamp: nat)
    ensures var e, t := Agree(hasModule, stamp), Step(c, r, Agree(hasModule, stamp));
            t.prepares == if Settles(c, r, e).Some? then r.prepares + {c.me} else r.prepares
  {
    EnoughIsNeed(c, r);
    NonOkPrepares(c, r, PROVIDER_ERROR, stamp);
    var t := EstablishNonOkWinner(c, r, PROVIDER_ERROR, stamp);
    assert Step(c, r, Agree(hasModule, stamp)).prepares == if MayAgree(c, r) && !HoldsOk(r.proposals) then t.prepares else r.prepares;
  }

  lemma VerdictPrepares(c: Pinned, r: Round, verdict: Option<Winner>, stamp: nat)
    ensures var e, t := Verdict(verdict, stamp), Step(c, r, Verdict(verdict, stamp));
            t.prepares == if Settles(c, r, e).Some? then r.prepares + {c.me} else r.prepares
  {
    var s := r.(agreeing := false);
    if r.agreeing && Open(r) {
      if verdict.Some? { OkWinnerPrepares(c, s, verdict.value, stamp); } else { NonOkPrepares(c, s, NO_QUORUM, stamp); }
    }
  }

  lemma AdoptNonOkPrepares(c: Pinned, r: Round, m: Envelope, k: Checks, derives: bool)
    requires r.signatures == map[] && PreparedFailure(c, r, Prepare(m, k, derives))
    ensures var a := AdoptNonOkPrepare(c, r, m, StatedMap(c, m), k, derives);
            a.1 && a.0.prepares + {m.sender} == r.prepares + {m.sender} + if MayCoSignNonOk(c, r, m.status) then {c.me} else {}
  {
    SignedIsInWindow(c, m, k);
    MapAgreesIsAllowed(c, r, m);
    BorneOutIsDerived(c, r, m, derives);
    assert Adopt(r, m, StatedTime(c, m), StatedMap(c, m)).signatures.Keys == {m.sender};
  }

  lemma CoSignPrepares(c: Pinned, s: Round)
    requires s.winner.Some?
    ensures CoSignOk(c, s).0.prepares == s.prepares + if SignsOk(c, s) then {c.me} else {}
    ensures CoSignOk(c, s).1 <==> !(c.me in s.proposals && c.strategy == JudgeModel && s.proposals[c.me].body == [])
  {
  }

  lemma AdoptOkPrepares(c: Pinned, r: Round, m: Envelope, k: Checks, derives: bool)
    requires PreparedOk(c, r, Prepare(m, k, derives))
    ensures var a := AdoptOkPrepare(c, r, m, StatedMap(c, m), k);
            && a.1 == !Withheld(c, r, m) && a.0.winner == Some(Winner(m.body, m.meta)) && a.0.status == "ok"
            && a.0.prepares == r.prepares + if SignsPrepared(c, r, a.0) then {c.me} else {}
  {
    AdoptedState(c, r, m, k, derives);
    var held := if c.strategy == JudgeModel then (r, true) else Corroborated(c, r, m, StatedTime(c, m), StatedMap(c, m));
    CorroboratedPrepares(c, r, m);
    CoSignPrepares(c, Adopt(held.0, m, StatedTime(c, m), StatedMap(c, m)));
    EndorseOutcome(c, Adopt(held.0, m, StatedTime(c, m), StatedMap(c, m)));
  }

  lemma CorroboratedPrepares(c: Pinned, r: Round, m: Envelope)
    requires m.sig.Some?
    ensures var h := Corroborated(c, r, m, StatedTime(c, m), StatedMap(c, m));
            && (h.1 <==> HeldAsOk(c, r, c.me, m) || Seconded(c, r, m))
            && h.0.prepares == r.prepares + (if h.1 then {} else {m.sender})
            && (!h.1 ==> h.0.signatures == r.signatures)
  {
    CorroboratedOutcome(c, r, m);
    CorroboratedLeaves(c, r, m, StatedTime(c, m), StatedMap(c, m));
  }

  lemma CorroboratedLeaves(c: Pinned, r: Round, m: Envelope, et: Option<nat>, admit: Option<string>)
    requires m.sig.Some?
    ensures var h := Corroborated(c, r, m, et, admit);
            && (h.1 ==> h.0.prepares == r.prepares)
            && (!h.1 ==> h.0.prepares == r.prepares + {m.sender} && h.0.signatures == r.signatures)
  {
  }

  lemma UnsettledPrepares(c: Pinned, r: Round, m: Envelope, k: Checks, derives: bool)
    requires r.winner.None? && Heard(c, r, m, k) && Settles(c, r, Prepare(m, k, derives)).None?
    ensures var a := Attempt(c, r, m, StatedMap(c, m), k, derives);
            !a.1 && a.0.signatures == r.signatures && a.0.prepares == r.prepares + if HeldBack(c, r, m, k) then {m.sender} else {}
  {
    SignedIsInWindow(c, m, k);
    MapAgreesIsAllowed(c, r, m);
    LeaderBodyHeld(c, r, m);
    if m.status == NO_QUORUM || m.status == PROVIDER_ERROR { BorneOutIsDerived(c, r, m, derives); }
    if HeldBack(c, r, m, k) { CorroboratedPrepares(c, r, m); }
  }

  lemma HeardStep(c: Pinned, r: Round, m: Envelope, k: Checks, derives: bool)
    ensures var t := Step(c, r, Prepare(m, k, derives));
            if !Heard(c, r, m, k) then t == r
            else if r.winner.Some? then t == FinishPrepare(c, CountSignature(c, r, m), m.sender)
            else var a := Attempt(c, r, m, StatedMap(c, m), k, derives); t == if a.1 then FinishPrepare(c, a.0, m.sender) else a.0
  {
    SignedIsInWindow(c, m, k);
  }

  /** The prepared members once a PREPARE has settled the round. */
  ghost predicate PreparesSettled(c: Pinned, r: Round, m: Envelope, t: Round) {
    && t.winner.Some?
    && t.prepares == r.prepares + if Withheld(c, r, m) then {} else {m.sender} + if SignsPrepared(c, r, t) then {c.me} else {}
  }

  lemma SettledJoin(c: Pinned, r: Round, m: Envelope, k: Checks, derives: bool, t: Round)
    requires Settles(c, r, Prepare(m, k, derives)).Some? && PreparesSettled(c, r, m, t)
    ensures PreparesAre(c, r, Prepare(m, k, derives), t)
  {
    assert Heard(c, r, m, k);
  }

  lemma FailurePrepares(c: Pinned, r: Round, m: Envelope, k: Checks, derives: bool)
    requires r.signatures == map[] && PreparedFailure(c, r, Prepare(m, k, derives))
    ensures PreparesSettled(c, r, m, Step(c, r, Prepare(m, k, derives)))
  {
    var a := AdoptNonOkPrepare(c, r, m, StatedMap(c, m), k, derives);
    AdoptNonOkPrepares(c, r, m, k, derives);
    AdoptNonOkOutcome(c, r, m, k, derives);
    HeardStep(c, r, m, k, derives);
    FinishKeeps(c, a.0, m.sender);
  }

  lemma FinishKeeps(c: Pinned, s: Round, sender: string)
    requires s.winner.Some?
    ensures var t := FinishPrepare(c, s, sender); t.winner == s.winner && t.status == s.status && t.prepares == s.prepares + {sender}
  {
    FinishOutcome(c, s, sender);
    QuorumsPrepareNobody(c, s, sender);
  }

  lemma OkPrepares(c: Pinned, r: Round, m: Envelope, k: Checks, derives: bool)
    requires PreparedOk(c, r, Prepare(m, k, derives))
    ensures PreparesSettled(c, r, m, Step(c, r, Prepare(m, k, derives)))
  {
    var a := AdoptOkPrepare(c, r, m, StatedMap(c, m), k);
    AdoptOkPrepares(c, r, m, k, derives);
    HeardStep(c, r, m, k, derives);
    FinishKeeps(c, a.0, m.sender);
    SameSigning(c, r, a.0, Step(c, r, Prepare(m, k, derives)));
  }

  lemma SameSigning(c: Pinned, r: Round, s: Round, t: Round)
    requires s.winner.Some? && t.winner == s.winner && t.status == s.status
    ensures SignsPrepared(c, r, s) == SignsPrepared(c, r, t)
  {
  }

  lemma PreparePrepares(c: Pinned, r: Round, m: Envelope, k: Checks, derives: bool)
    requires r.winner.None? ==> r.signatures == map[]
    ensures PreparesAre(c, r, Prepare(m, k, derives), Step(c, r, Prepare(m, k, derives)))
  {
    HeardStep(c, r, m, k, derives);
    if PreparedFailure(c, r, Prepare(m, k, derives)) {
      FailurePrepares(c, r, m, k, derives);
      SettledJoin(c, r, m, k, derives, Step(c, r, Prepare(m, k, derives)));
    } else if PreparedOk(c, r, Prepare(m, k, derives)) {
      OkPrepares(c, r, m, k, derives);
      SettledJoin(c, r, m, k, derives, Step(c, r, Prepare(m, k, derives)));
    } else if Heard(c, r, m, k) {
      if r.winner.Some? { QuorumsPrepareNobody(c, CountSignature(c, r, m), m.sender); } else { UnsettledPrepares(c, r, m, k, derives); }
    }
  }

  /** After each event the prepared members are those of before and exactly who joins with it. */
  lemma PreparesExactly(c: Pinned, r: Round, e: Event)
    requires r.winner.None? ==> r.signatures == map[]
    ensures PreparesAre(c, r, e, Step(c, r, e))
  {
    match e
    case Propose(m, k) => ProposesExactly(c, r, m, k);
    case Agree(hasModule, stamp) => AgreePrepares(c, r, hasModule, stamp);
    case Verdict(verdict, stamp) => VerdictPrepares(c, r, verdict, stamp);
    case Prepare(m, k, derives) => PreparePrepares(c, r, m, k, derives);
    case Commit(m, k) =>
  }

  // ----------------------------------------------------- the quorums act at once

  predicate Quorate(c: Pinned, n: nat) { n >= c.quorum && n >= c.redundancy }

  /** An open round has neither committed nor finalized, nor has anybody prepared a judged winner; a settled one that is not
      finalized has sent its COMMIT exactly when enough members prepared, and then lacks signatures. */
  ghost predicate Prompt(c: Pinned, r: Round) {
    && (r.winner.None? ==> !r.commitSent && !r.finalized && r.signatures == map[] && (c.strategy == JudgeModel ==> r.prepares == {}))
    && (r.winner.Some? && !r.finalized ==>
          && (r.commitSent <==> Quorate(c, |r.prepares|))
          && (r.commitSent ==> !Quorate(c, |r.signatures|)))
  }

  lemma BroadcastIsPrompt(c: Pinned, r: Round)
    requires r.winner.Some? && !r.commitSent && !r.finalized
    ensures Prompt(c, BroadcastAgreedPrepare(c, r))
  {
    RedundancyBinds(c);
  }

  /** The COMMIT is out exactly on a quorum of prepares. */
  ghost predicate Answered(c: Pinned, r: Round) {
    r.winner.Some? && (!r.finalized ==> (r.commitSent <==> Quorate(c, |r.prepares|)))
  }

  lemma PrepareQuorumAnswers(c: Pinned, r: Round, sender: string)
    requires r.winner.Some? && !r.finalized && (r.commitSent ==> Quorate(c, |r.prepares|))
    ensures Answered(c, CheckPrepareQuorum(c, r.(prepares := r.prepares + {sender})))
  {
    RedundancyBinds(c);
    SubsetSize(r.prepares, r.prepares + {sender});
  }

  lemma CommitQuorumIsPrompt(c: Pinned, r: Round)
    requires Answered(c, r)
    ensures r.commitSent ==> Prompt(c, CheckCommitQuorum(c, r))
    ensures !r.commitSent ==> Prompt(c, r)
  {
    RedundancyBinds(c);
  }

  lemma FinishIsPrompt(c: Pinned, r: Round, sender: string)
    requires r.winner.Some? && !r.finalized && (r.commitSent ==> Quorate(c, |r.prepares|))
    ensures Prompt(c, FinishPrepare(c, r, sender))
  {
    PrepareQuorumAnswers(c, r, sender);
    CommitQuorumIsPrompt(c, CheckPrepareQuorum(c, r.(prepares := r.prepares + {sender})));
  }

  lemma CollectIsOpen(c: Pinned, s: Round)
    requires s.winner.Some? && !s.commitSent && !s.finalized
    ensures CollectOk(c, s).winner.Some? && !CollectOk(c, s).commitSent && !CollectOk(c, s).finalized
    ensures CollectNonOk(c, s).winner.Some? && !CollectNonOk(c, s).commitSent && !CollectNonOk(c, s).finalized
  {
  }

  lemma EstablishIsPrompt(c: Pinned, r: Round, w: Winner, status: string, stamp: nat)
    requires Prompt(c, r) && r.winner.None?
    ensures Prompt(c, EstablishOkWinner(c, r, w, stamp)) && Prompt(c, EstablishNonOkWinner(c, r, status, stamp))
  {
    var s, t := Settle(c, r, w, "ok", stamp), Settle(c, r, Winner([], ""), status, stamp);
    CollectIsOpen(c, s);
    CollectIsOpen(c, t);
    BroadcastIsPrompt(c, CollectOk(c, s));
    BroadcastIsPrompt(c, CollectNonOk(c, t));
  }

  /** Only a hub that withholds its signature from a judged winner leaves a settled round unchecked, and then nobody has
      prepared. */
  lemma AttemptIsPrompt(c: Pinned, r: Round, m: Envelope, k: Checks, derives: bool)
    requires Prompt(c, r) && r.winner.None? && Heard(c, r, m, k) && !Quorate(c, 0)
    ensures var a := Attempt(c, r, m, StatedMap(c, m), k, derives);
            && !a.0.commitSent && !a.0.finalized
            && (a.1 ==> a.0.winner.Some?) && (!a.1 ==> Prompt(c, a.0))
  {
    var e := Prepare(m, k, derives);
    if m.status != "ok" { AdoptNonOkGrows(c, r, m, StatedMap(c, m), k, derives); } else { AdoptOkGrows(c, r, m, StatedMap(c, m), k); }
    AttemptOutcome(c, r, m, k, derives);
    if PreparedFailure(c, r, e) {
      AdoptNonOkPrepares(c, r, m, k, derives);
    } else if PreparedOk(c, r, e) {
      AdoptOkPrepares(c, r, m, k, derives);
    } else {
      UnsettledPrepares(c, r, m, k, derives);
    }
  }

  lemma PrepareIsPrompt(c: Pinned, r: Round, m: Envelope, k: Checks, derives: bool)
    requires Prompt(c, r) && !Quorate(c, 0)
    ensures Prompt(c, Step(c, r, Prepare(m, k, derives)))
  {
    HeardStep(c, r, m, k, derives);
    if Heard(c, r, m, k) {
      if r.winner.Some? {
        FinishIsPrompt(c, CountSignature(c, r, m), m.sender);
      } else {
        AttemptIsPrompt(c, r, m, k, derives);
        var a := Attempt(c, r, m, StatedMap(c, m), k, derives);
        if a.1 { FinishIsPrompt(c, a.0, m.sender); }
      }
    }
  }

  lemma CommitIsPrompt(c: Pinned, r: Round, m: Envelope, k: Checks)
    requires Prompt(c, r)
    ensures Prompt(c, Step(c, r, Commit(m, k)))
  {
    if r.winner.Some? && Step(c, r, Commit(m, k)) != r {
      var s := CountSignature(c, r, m);
      CommitQuorumIsPrompt(c, s.(commits := s.commits + {m.sender}));
    }
  }

  lemma StepIsPrompt(c: Pinned, r: Round, e: Event)
    requires Prompt(c, r) && !Quorate(c, 0)
    ensures Prompt(c, Step(c, r, e))
  {
    match e
    case Propose(m, k) =>
    case Agree(hasModule, stamp) =>
      if r.winner.None? { EstablishIsPrompt(c, r, Winner([], ""), PROVIDER_ERROR, stamp); }
    case Verdict(verdict, stamp) =>
      if r.winner.None? {
        EstablishIsPrompt(c, r.(agreeing := false), if verdict.Some? then verdict.value else Winner([], ""), NO_QUORUM, stamp);
      }
    case Prepare(m, k, derives) => PrepareIsPrompt(c, r, m, k, derives);
    case Commit(m, k) => CommitIsPrompt(c, r, m, k);
  }

  lemma {:induction false} RunIsPrompt(c: Pinned, r: Round, events: seq<Event>)
    requires Prompt(c, r) && !Quorate(c, 0)
    ensures Prompt(c, After(c, r, events))
    decreases |events|
  {
    if events != [] {
      StepIsPrompt(c, r, events[0]);
      RunIsPrompt(c, Step(c, r, events[0]), events[1..]);
    }
  }

  /** Neither quorum is ever passed over: over every run, a settled round that is not finalized has sent its COMMIT exactly
      when its prepares number the quorum and the redundancy, and once it has, its signatures do not. */
  lemma QuorumsAct(c: Pinned, own: Vote, inCap: bool, published: set<string>, events: seq<Event>)
    requires c.redundancy > 0
    ensures var t := After(c, Opened(c, own, inCap, published), events);
            t.winner.Some? && !t.finalized ==>
              && (t.commitSent <==> |t.prepares| >= c.quorum && |t.prepares| >= c.redundancy)
              && (t.commitSent ==> |t.signatures| < c.quorum || |t.signatures| < c.redundancy)
  {
    RunIsPrompt(c, Opened(c, own, inCap, published), events);
  }
}
