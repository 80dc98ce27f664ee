/** Where the outcome of a round comes from: which events settle it, on what, and who signs, told from the events and the
    proposals held. */
module AttestationOutcomes {
  import opened JsValues
  import opened AttestationRound
  import opened AttestationSafety
  import opened AttestationVotes

  // ------------------------------------------------------ what a round holds

  ghost predicate SomeOk(r: Round) { exists pk :: pk in r.proposals && r.proposals[pk].status == "ok" }

  /** As many proposals as the round waits for, or as can still come. */
  predicate Enough(c: Pinned, r: Round) { |r.proposals| >= c.redundancy || |r.proposals| >= |c.responsible| }

  /** The elected leader is a member that has not proposed while proposals can still come. */
  predicate LeaderAwaited(c: Pinned, r: Round) {
    match c.leader
    case None => false
    case Some(leader) => leader in c.responsible && leader !in r.proposals && |r.proposals| < |c.responsible|
  }

  predicate Open(r: Round) { r.winner.None? && !r.finalized }

  /** Nothing keeps the own agree() from starting. */
  ghost predicate Ripe(c: Pinned, r: Round) {
    Open(r) && !r.agreeing && Enough(c, r) && !(LeaderAwaited(c, r) && ((c.mirrorEra && c.strategy != JudgeModel) || r.admit.Some?))
  }

  // -------------------------------------------------------- what an envelope is

  /** The time and the admission map an envelope states in the round's eras. */
  function StatedTime(c: Pinned, m: Envelope): Option<nat> { if c.mirrorEra then m.et else None }

  function StatedMap(c: Pinned, m: Envelope): Option<string> { if c.admissionEra then m.admit else None }

  /** It states a map exactly in the admission era, one that decodes and is in bound. */
  predicate MapReadable(c: Pinned, m: Envelope, k: Checks) {
    m.admit.Some? == c.admissionEra && (c.admissionEra ==> AdmitText(m.admit.value) && k.admitInBound)
  }

  /** Its sender's signature covers what it states; in the mirror era that includes a time in the window. */
  ghost predicate SignedByItsSender(c: Pinned, m: Envelope, k: Checks) {
    && m.sender in c.responsible && m.sig.Some? && MapReadable(c, m, k) && (c.mirrorEra ==> m.et.Some? && k.inWindow)
    && c.verify(Canonical(c, c.hash(m.body), m.status, m.meta, StatedTime(c, m), StatedMap(c, m)), m.sig.value, m.sender)
  }

  /** The stated map is the leader's; without the leader's proposal, the leader may state any, and others the own one once the
      leader is no longer awaited. */
  ghost predicate MapAgrees(c: Pinned, r: Round, m: Envelope) {
    r.admit.None? ||
    match c.leader
    case Some(leader) =>
      if leader in r.proposals then StatedMap(c, m) == (if r.proposals[leader].admit.Some? then r.proposals[leader].admit else r.admit)
      else m.sender == leader || (!LeaderAwaited(c, r) && StatedMap(c, m) == r.admit)
    case None => StatedMap(c, m) == r.admit
  }

  // ------------------------------------------------------------- settling

  /** The own round finds no ok proposal among enough of them. */
  ghost predicate OwnOutage(c: Pinned, r: Round, e: Event) {
    e.Agree? && Ripe(c, r) && !SomeOk(r) && "provider_error" !in r.published
  }

  ghost predicate OwnNoWinner(c: Pinned, r: Round, e: Event) {
    e.Verdict? && e.verdict.None? && r.agreeing && Open(r) && "no_quorum" !in r.published
  }

  ghost predicate OwnWinner(c: Pinned, r: Round, e: Event) {
    e.Verdict? && e.verdict.Some? && r.agreeing && Open(r)
  }

  /** What this hub holds bears the claimed failure out. An outage: enough proposals, none of them ok. No winner: under
      byte_equality enough proposals, one of them ok, and the own agree() answers no winner too; under judge_model the word
      of the leader, where there is one. */
  ghost predicate BorneOut(c: Pinned, r: Round, m: Envelope, derivesWinner: bool) {
    if m.status == "provider_error" then Enough(c, r) && !SomeOk(r)
    else match c.strategy
         case ByteEquality => Enough(c, r) && SomeOk(r) && !derivesWinner
         case JudgeModel => c.leader.None? || c.leader == Some(m.sender)
         case Unpinned => true
  }

  ghost predicate PreparedFailure(c: Pinned, r: Round, e: Event) {
    && e.Prepare? && Open(r) && e.k.bodyInCap && SignedByItsSender(c, e.m, e.k) && MapAgrees(c, r, e.m)
    && (e.m.status == "no_quorum" || e.m.status == "provider_error") && e.m.status !in r.published && e.m.body == [] && e.m.meta == ""
    && BorneOut(c, r, e.m, e.derivesWinner)
  }

  /** Another signer announced exactly what the envelope states. */
  ghost predicate Seconded(c: Pinned, r: Round, m: Envelope) {
    var key := Candidate(c.hash(m.body), m.meta, StatedTime(c, m), StatedMap(c, m));
    key in r.candidates && exists pk :: pk in r.candidates[key] && pk != m.sender
  }

  ghost predicate HeldAsOk(c: Pinned, r: Round, pk: string, m: Envelope) {
    pk in r.proposals && r.proposals[pk].status == "ok" && c.hash(r.proposals[pk].body) == c.hash(m.body) && r.proposals[pk].meta == m.meta
  }

  /** Under judge_model the leader's word for a body proposed to this hub among enough; otherwise a match with the own ok
      proposal, or a second signer. */
  ghost predicate PreparedOk(c: Pinned, r: Round, e: Event) {
    && e.Prepare? && Open(r) && e.k.bodyInCap && SignedByItsSender(c, e.m, e.k) && MapAgrees(c, r, e.m) && e.m.status == "ok"
    && if c.strategy == JudgeModel
       then (c.leader.None? || c.leader == Some(e.m.sender)) && Enough(c, r) && exists pk :: HeldAsOk(c, r, pk, e.m)
       else HeldAsOk(c, r, c.me, e.m) || Seconded(c, r, e.m)
  }

  /** What the event settles an open round on. */
  ghost function Settles(c: Pinned, r: Round, e: Event): Option<(Winner, string)> {
    if OwnOutage(c, r, e) then Some((Winner([], ""), "provider_error"))
    else if OwnNoWinner(c, r, e) then Some((Winner([], ""), "no_quorum"))
    else if OwnWinner(c, r, e) then Some((e.verdict.value, "ok"))
    else if PreparedFailure(c, r, e) || PreparedOk(c, r, e) then Some((Winner(e.m.body, e.m.meta), e.m.status))
    else None
  }

  ghost function Outcomes(r: Round): Option<(Winner, string)> { if r.winner.Some? then Some((r.winner.value, r.status)) else None }

  lemma EnoughIsNeed(c: Pinned, r: Round)
    ensures Enough(c, r) <==> |r.proposals| >= Need(c)
    ensures SomeOk(r) <==> HoldsOk(r.proposals)
    ensures LeaderAwaited(c, r) <==> LeaderStillDue(c, r.proposals)
    ensures Ripe(c, r) <==> MayAgree(c, r)
  {
  }

  lemma QuorumOutcome(c: Pinned, r: Round)
    ensures Outcomes(CheckPrepareQuorum(c, r)) == Outcomes(r)
    ensures r.winner.Some? ==> Outcomes(CheckCommitQuorum(c, r)) == Outcomes(r)
  {
  }

  lemma FinishOutcome(c: Pinned, r: Round, sender: string)
    ensures Outcomes(FinishPrepare(c, r, sender)) == Outcomes(r)
  {
    QuorumOutcome(c, r.(prepares := r.prepares + {sender}));
  }

  lemma NonOkOutcome(c: Pinned, r: Round, status: string, stamp: nat)
    ensures Outcomes(EstablishNonOkWinner(c, r, status, stamp)) ==
            if Open(r) && status !in r.published then Some((Winner([], ""), status)) else Outcomes(r)
  {
    var u := CollectNonOk(c, Settle(c, r, Winner([], ""), status, stamp));
    QuorumOutcome(c, u.(prepares := u.prepares + {c.me}));
  }

  lemma OkOutcome(c: Pinned, r: Round, w: Winner, stamp: nat)
    ensures Outcomes(EstablishOkWinner(c, r, w, stamp)) == Some((w, "ok"))
  {
    var u := CollectOk(c, Settle(c, r, w, "ok", stamp));
    QuorumOutcome(c, u.(prepares := u.prepares + {c.me}));
  }

  lemma AgreeOutcome(c: Pinned, r: Round, hasModule: bool, stamp: nat)
    ensures var e := Agree(hasModule, stamp);
            Outcomes(Step(c, r, e)) == if Settles(c, r, e).Some? then Settles(c, r, e) else Outcomes(r)
  {
    EnoughIsNeed(c, r);
    NonOkOutcome(c, r, PROVIDER_ERROR, stamp);
  }

  lemma VerdictOutcome(c: Pinned, r: Round, verdict: Option<Winner>, stamp: nat)
    ensures var e := Verdict(verdict, stamp);
            Outcomes(Step(c, r, e)) == if Settles(c, r, e).Some? then Settles(c, r, e) else Outcomes(r)
  {
    var s := r.(agreeing := false);
    NonOkOutcome(c, s, NO_QUORUM, stamp);
    if verdict.Some? { OkOutcome(c, s, verdict.value, stamp); }
  }

  lemma SignedIsInWindow(c: Pinned, m: Envelope, k: Checks)
    ensures MapReadable(c, m, k) <==> ReadWireAdmitBlocks(c, m, k).Some?
    ensures MapReadable(c, m, k) ==> ReadWireAdmitBlocks(c, m, k) == Some(StatedMap(c, m))
    ensures m.sender in c.responsible && MapReadable(c, m, k) ==> (SignedByItsSender(c, m, k) <==> SignedInWindow(c, m, StatedMap(c, m), k))
    ensures SignedByItsSender(c, m, k) ==> ReadWireEffectiveTime(c, m) == Some(StatedTime(c, m))
  {
  }

  lemma MapAgreesIsAllowed(c: Pinned, r: Round, m: Envelope)
    ensures MapAgrees(c, r, m) <==> PrepareAdmitMapAllowed(c, r, m.sender, StatedMap(c, m))
  {
  }

  lemma BorneOutIsDerived(c: Pinned, r: Round, m: Envelope, derives: bool)
    requires m.status == NO_QUORUM || m.status == PROVIDER_ERROR
    ensures BorneOut(c, r, m, derives) <==> !NonOkDerivationRefuses(c, r, m.status, m.sender, derives)
  {
    EnoughIsNeed(c, r);
  }

  lemma EndorseOutcome(c: Pinned, s: Round)
    requires s.winner.Some?
    ensures c.me in s.proposals ==> Outcomes(Endorse(c, s)) == Outcomes(s)
    ensures Outcomes(CoSignOk(c, s).0) == Outcomes(s)
  {
  }

  lemma AdoptNonOkOutcome(c: Pinned, r: Round, m: Envelope, k: Checks, derives: bool)
    requires Open(r) && m.sender in c.responsible && MapReadable(c, m, k) && k.bodyInCap && m.status != "ok"
    ensures var a := AdoptNonOkPrepare(c, r, m, StatedMap(c, m), k, derives);
            Outcomes(a.0) == if PreparedFailure(c, r, Prepare(m, k, derives)) then Some((Winner(m.body, m.meta), m.status)) else None
  {
    SignedIsInWindow(c, m, k);
    MapAgreesIsAllowed(c, r, m);
    if m.status == NO_QUORUM || m.status == PROVIDER_ERROR { BorneOutIsDerived(c, r, m, derives); }
    if AdoptNonOkPrepare(c, r, m, StatedMap(c, m), k, derives).1 {
      EndorseOutcome(c, Adopt(r, m, StatedTime(c, m), StatedMap(c, m)));
    }
  }

  lemma TwoVoters(votes: map<string, string>, sender: string, sig: string)
    ensures |votes[sender := sig]| >= 2 <==> exists pk :: pk in votes && pk != sender
  {
    var all := votes[sender := sig];
    assert |all.Keys| == |all|;
    if pk :| pk in votes && pk != sender {
      assert {pk, sender} <= all.Keys;
      assert all.Keys == {pk, sender} + (all.Keys - {pk, sender});
    } else {
      assert all.Keys == {sender};
    }
  }

  lemma AnnouncedVotes(candidates: map<Candidate, map<string, string>>, key: Candidate, sender: string, sig: string)
    ensures Announce(candidates, key, sender, sig)[key] == (if key in candidates then candidates[key] else map[])[sender := sig]
  {
  }

  lemma CorroboratedWhen(c: Pinned, r: Round, m: Envelope, et: Option<nat>, admit: Option<string>)
    requires m.sig.Some?
    ensures var key := Candidate(c.hash(m.body), m.meta, et, admit);
            Corroborated(c, r, m, et, admit).1 <==>
            OwnOkMatches(c, r.proposals, c.hash(m.body), m.meta) || |Announce(r.candidates, key, m.sender, m.sig.value)[key]| >= 2
  {
  }

  lemma CorroboratedOutcome(c: Pinned, r: Round, m: Envelope)
    requires m.sig.Some?
    ensures var h := Corroborated(c, r, m, StatedTime(c, m), StatedMap(c, m));
            (h.1 <==> HeldAsOk(c, r, c.me, m) || Seconded(c, r, m)) && Outcomes(h.0) == Outcomes(r)
  {
    var et, admit := StatedTime(c, m), StatedMap(c, m);
    CorroboratedWhen(c, r, m, et, admit);
    CorroboratedFrame(c, r, m, et, admit);
    SecondedIsTwo(c, r, m);
  }

  lemma SecondedIsTwo(c: Pinned, r: Round, m: Envelope)
    requires m.sig.Some?
    ensures var key := Candidate(c.hash(m.body), m.meta, StatedTime(c, m), StatedMap(c, m));
            |Announce(r.candidates, key, m.sender, m.sig.value)[key]| >= 2 <==> Seconded(c, r, m)
  {
    var key := Candidate(c.hash(m.body), m.meta, StatedTime(c, m), StatedMap(c, m));
    AnnouncedVotes(r.candidates, key, m.sender, m.sig.value);
    TwoVoters(if key in r.candidates then r.candidates[key] else map[], m.sender, m.sig.value);
  }

  lemma JudgeAdoptOutcome(c: Pinned, r: Round, m: Envelope, k: Checks, derives: bool)
    requires c.strategy == JudgeModel && Open(r) && m.sender in c.responsible && MapReadable(c, m, k) && k.bodyInCap && m.status == "ok"
    ensures var a := AdoptOkPrepare(c, r, m, StatedMap(c, m), k);
            Outcomes(a.0) == if PreparedOk(c, r, Prepare(m, k, derives)) then Some((Winner(m.body, m.meta), m.status)) else None
  {
    SignedIsInWindow(c, m, k);
    MapAgreesIsAllowed(c, r, m);
    LeaderBodyHeld(c, r, m);
    if SignedByItsSender(c, m, k) { EndorseOutcome(c, Adopt(r, m, StatedTime(c, m), StatedMap(c, m))); }
  }

  lemma OtherAdoptOutcome(c: Pinned, r: Round, m: Envelope, k: Checks, derives: bool)
    requires c.strategy != JudgeModel && Open(r) && m.sender in c.responsible && MapReadable(c, m, k) && k.bodyInCap && m.status == "ok"
    ensures var a := AdoptOkPrepare(c, r, m, StatedMap(c, m), k);
            Outcomes(a.0) == if PreparedOk(c, r, Prepare(m, k, derives)) then Some((Winner(m.body, m.meta), m.status)) else None
  {
    SignedIsInWindow(c, m, k);
    MapAgreesIsAllowed(c, r, m);
    if SignedByItsSender(c, m, k) {
      CorroboratedOutcome(c, r, m);
      EndorseOutcome(c, Adopt(Corroborated(c, r, m, StatedTime(c, m), StatedMap(c, m)).0, m, StatedTime(c, m), StatedMap(c, m)));
    }
  }

  lemma LeaderBodyHeld(c: Pinned, r: Round, m: Envelope)
    ensures LeaderBodyMatchesProposal(c, r, m) <==> Enough(c, r) && exists pk :: HeldAsOk(c, r, pk, m)
  {
    EnoughIsNeed(c, r);
    if LeaderBodyMatchesProposal(c, r, m) {
      var pk :| pk in r.proposals && r.proposals[pk].status == "ok" && c.hash(r.proposals[pk].body) == c.hash(m.body) && r.proposals[pk].meta == m.meta;
      assert HeldAsOk(c, r, pk, m);
    }
    if Enough(c, r) && exists pk :: HeldAsOk(c, r, pk, m) {
      var pk :| HeldAsOk(c, r, pk, m);
      assert pk in r.proposals;
    }
  }

  lemma AttemptOutcome(c: Pinned, r: Round, m: Envelope, k: Checks, derives: bool)
    requires Open(r) && m.sender in c.responsible && MapReadable(c, m, k) && k.bodyInCap
    ensures var e, a := Prepare(m, k, derives), Attempt(c, r, m, StatedMap(c, m), k, derives);
            Outcomes(a.0) == if PreparedFailure(c, r, e) || PreparedOk(c, r, e) then Some((Winner(m.body, m.meta), m.status)) else None
  {
    if m.status != "ok" {
      AdoptNonOkOutcome(c, r, m, k, derives);
    } else if c.strategy == JudgeModel {
      JudgeAdoptOutcome(c, r, m, k, derives);
    } else {
      OtherAdoptOutcome(c, r, m, k, derives);
    }
  }

  lemma Unsettled(c: Pinned, r: Round, m: Envelope, k: Checks, derives: bool)
    requires !(Open(r) && m.sender in c.responsible && MapReadable(c, m, k) && k.bodyInCap)
    ensures Settles(c, r, Prepare(m, k, derives)).None?
  {
  }

  lemma PrepareOutcome(c: Pinned, r: Round, m: Envelope, k: Checks, derives: bool)
    ensures var e := Prepare(m, k, derives);
            Outcomes(Step(c, r, e)) == if Settles(c, r, e).Some? then Settles(c, r, e) else Outcomes(r)
  {
    SignedIsInWindow(c, m, k);
    if Open(r) && m.sender in c.responsible && MapReadable(c, m, k) && k.bodyInCap {
      AttemptOutcome(c, r, m, k, derives);
      FinishOutcome(c, Attempt(c, r, m, StatedMap(c, m), k, derives).0, m.sender);
    } else {
      Unsettled(c, r, m, k, derives);
      if !r.finalized && m.sender in c.responsible && MapReadable(c, m, k) && k.bodyInCap {
        FinishOutcome(c, CountSignature(c, r, m), m.sender);
      }
    }
  }

  lemma CommitOutcome(c: Pinned, r: Round, m: Envelope, k: Checks)
    ensures Outcomes(HandleCommit(c, r, m, k)) == Outcomes(r)
  {
    if r.winner.Some? {
      var s := CountSignature(c, r, m);
      QuorumOutcome(c, s.(commits := s.commits + {m.sender}));
    }
  }

  /** Which events settle a round, and on what: exactly these. */
  lemma StepSettlesExactly(c: Pinned, r: Round, e: Event)
    ensures Outcomes(Step(c, r, e)) == if Settles(c, r, e).Some? then Settles(c, r, e) else Outcomes(r)
  {
    match e
    case Propose(m, k) =>
    case Agree(hasModule, stamp) => AgreeOutcome(c, r, hasModule, stamp);
    case Verdict(verdict, stamp) => VerdictOutcome(c, r, verdict, stamp);
    case Prepare(m, k, derives) => PrepareOutcome(c, r, m, k, derives);
    case Commit(m, k) => CommitOutcome(c, r, m, k);
  }

  /** The first settling event of the run settles it. */
  ghost function EverSettles(c: Pinned, r: Round, events: seq<Event>): Option<(Winner, string)>
    decreases |events|
  {
    if events == [] then None
    else if Settles(c, r, events[0]).Some? then Settles(c, r, events[0])
    else EverSettles(c, Step(c, r, events[0]), events[1..])
  }

  lemma {:induction false} SettledStays(c: Pinned, r: Round, events: seq<Event>)
    requires r.winner.Some?
    ensures Outcomes(After(c, r, events)) == Outcomes(r)
    decreases |events|
  {
    if events != [] {
      StepSettlesExactly(c, r, events[0]);
      SettledStays(c, Step(c, r, events[0]), events[1..]);
    }
  }

  lemma {:induction false} RunSettlesExactly(c: Pinned, r: Round, events: seq<Event>)
    requires r.winner.None?
    ensures Outcomes(After(c, r, events)) == EverSettles(c, r, events)
    decreases |events|
  {
    if events != [] {
      StepSettlesExactly(c, r, events[0]);
      if Settles(c, r, events[0]).Some? {
        SettledStays(c, Step(c, r, events[0]), events[1..]);
      } else {
        RunSettlesExactly(c, Step(c, r, events[0]), events[1..]);
      }
    }
  }

  // ------------------------------------------------------- what a hub signs

  /** Nothing but the vote it opened with and the vote of the settled round. */
  ghost predicate SignsSettled(r: Round, own: Vote) {
    forall v :: v in r.signed ==> v == own || (r.winner.Some? && v == WinnerVote(r))
  }

  /** A step that leaves a settled round settled as it is and signs at most its vote. */
  ghost predicate SignsAtMost(r: Round, t: Round) {
    && (r.winner.Some? ==> t.winner == r.winner && t.status == r.status && t.et == r.et && t.admit == r.admit)
    && forall v :: v in t.signed ==> v in r.signed || (t.winner.Some? && v == WinnerVote(t))
  }

  lemma SignsAtMostKeeps(r: Round, t: Round, own: Vote)
    requires SignsSettled(r, own) && SignsAtMost(r, t)
    ensures SignsSettled(t, own)
  {
  }

  lemma QuorumSigns(c: Pinned, r: Round)
    ensures SignsAtMost(r, CheckPrepareQuorum(c, r))
    ensures r.winner.Some? ==> SignsAtMost(r, CheckCommitQuorum(c, r))
  {
  }

  /** Settled, with at most the settled vote added to what was signed. */
  ghost predicate SignsItsVote(before: set<Vote>, t: Round) {
    t.winner.Some? && forall v :: v in t.signed ==> v in before || v == WinnerVote(t)
  }

  lemma QuorumSignsItsVote(c: Pinned, before: set<Vote>, t: Round, sender: string)
    requires SignsItsVote(before, t)
    ensures SignsItsVote(before, BroadcastAgreedPrepare(c, t)) && SignsItsVote(before, FinishPrepare(c, t, sender))
  {
  }

  lemma CollectSigns(c: Pinned, s: Round)
    requires s.winner.Some?
    ensures SignsItsVote(s.signed, CollectOk(c, s)) && SignsItsVote(s.signed, CollectNonOk(c, s))
  {
  }

  lemma EndorseSignsItsVote(c: Pinned, s: Round)
    requires s.winner.Some?
    ensures c.me in s.proposals ==> SignsItsVote(s.signed, Endorse(c, s))
    ensures SignsItsVote(s.signed, CoSignOk(c, s).0)
  {
  }

  lemma NonOkSigns(c: Pinned, r: Round, status: string, stamp: nat)
    ensures SignsAtMost(r, EstablishNonOkWinner(c, r, status, stamp))
  {
    var s := Settle(c, r, Winner([], ""), status, stamp);
    CollectSigns(c, s);
    QuorumSignsItsVote(c, s.signed, CollectNonOk(c, s), c.me);
  }

  lemma VerdictSigns(c: Pinned, r: Round, verdict: Option<Winner>, stamp: nat)
    ensures SignsAtMost(r, FinishAgree(c, r, verdict, stamp))
  {
    var s := r.(agreeing := false);
    NonOkSigns(c, s, NO_QUORUM, stamp);
    if verdict.Some? {
      var t := Settle(c, s, verdict.value, "ok", stamp);
      CollectSigns(c, t);
      QuorumSignsItsVote(c, t.signed, CollectOk(c, t), c.me);
    }
  }

  lemma AttemptSigns(c: Pinned, r: Round, m: Envelope, admit: Option<string>, k: Checks, derives: bool)
    requires r.winner.None?
    ensures var a := Attempt(c, r, m, admit, k, derives).0; a.signed == r.signed || SignsItsVote(r.signed, a)
  {
    if m.status != "ok" {
      if AdoptNonOkPrepare(c, r, m, admit, k, derives).1 { EndorseSignsItsVote(c, Adopt(r, m, ReadWireEffectiveTime(c, m).value, admit)); }
    } else {
      AdoptOkSigns(c, r, m, admit, k);
    }
  }

  lemma AdoptOkSigns(c: Pinned, r: Round, m: Envelope, admit: Option<string>, k: Checks)
    requires r.winner.None?
    ensures var a := AdoptOkPrepare(c, r, m, admit, k).0; a.signed == r.signed || SignsItsVote(r.signed, a)
  {
    var et := ReadWireEffectiveTime(c, m);
    if AdoptOkPrepare(c, r, m, admit, k) != (r, false) {
      var held := if c.strategy == JudgeModel then (r, true) else Corroborated(c, r, m, et.value, admit);
      CorroboratedFrame(c, r, m, et.value, admit);
      if held.1 { EndorseSignsItsVote(c, Adopt(held.0, m, et.value, admit)); }
    }
  }

  lemma FinishSigns(c: Pinned, r: Round, sender: string)
    ensures SignsAtMost(r, FinishPrepare(c, r, sender)) && FinishPrepare(c, r, sender).signed == r.signed
  {
    QuorumSigns(c, r.(prepares := r.prepares + {sender}));
  }

  lemma PrepareSigns(c: Pinned, r: Round, m: Envelope, k: Checks, derives: bool)
    ensures SignsAtMost(r, HandlePrepare(c, r, m, k, derives))
  {
    var admit := ReadWireAdmitBlocks(c, m, k);
    if !r.finalized && m.sender in c.responsible && admit.Some? && k.bodyInCap {
      if r.winner.Some? {
        FinishSigns(c, CountSignature(c, r, m), m.sender);
      } else {
        var a := Attempt(c, r, m, admit.value, k, derives).0;
        AttemptSigns(c, r, m, admit.value, k, derives);
        FinishSigns(c, a, m.sender);
        if a.winner.Some? { QuorumSignsItsVote(c, r.signed, a, m.sender); }
      }
    }
  }

  lemma StepSigns(c: Pinned, r: Round, e: Event)
    ensures SignsAtMost(r, Step(c, r, e))
  {
    match e
    case Propose(m, k) =>
    case Agree(hasModule, stamp) => NonOkSigns(c, r, PROVIDER_ERROR, stamp);
    case Verdict(verdict, stamp) => VerdictSigns(c, r, verdict, stamp);
    case Prepare(m, k, derives) => PrepareSigns(c, r, m, k, derives);
    case Commit(m, k) =>
      if r.winner.Some? {
        var s := CountSignature(c, r, m);
        QuorumSigns(c, s.(commits := s.commits + {m.sender}));
      }
  }

  lemma {:induction false} EveryRunSignsSettled(c: Pinned, r: Round, events: seq<Event>, own: Vote)
    requires SignsSettled(r, own)
    ensures SignsSettled(After(c, r, events), own)
    decreases |events|
  {
    if events != [] {
      StepSigns(c, r, events[0]);
      SignsAtMostKeeps(r, Step(c, r, events[0]), own);
      EveryRunSignsSettled(c, Step(c, r, events[0]), events[1..], own);
    }
  }

  /** In every run a round is settled exactly by its first settling event, and on what that says; and a hub signs its own fetch
      and at most that outcome. */
  lemma SettlesExactly(c: Pinned, own: Vote, inCap: bool, published: set<string>, events: seq<Event>)
    ensures var start := Opened(c, own, inCap, published);
            var t := After(c, start, events);
            && Outcomes(t) == EverSettles(c, start, events)
            && forall v :: v in t.signed && v != own ==> EverSettles(c, start, events) == Some((Winner(v.body, v.meta), v.status))
  {
    var start := Opened(c, own, inCap, published);
    RunSettlesExactly(c, start, events);
    EveryRunSignsSettled(c, start, events, own);
  }

  lemma {:induction false} SettlingEvent(c: Pinned, r: Round, events: seq<Event>) returns (i: nat)
    requires EverSettles(c, r, events).Some?
    ensures i < |events| && Settles(c, After(c, r, events[..i]), events[i]) == EverSettles(c, r, events)
    decreases |events|
  {
    if Settles(c, r, events[0]).Some? {
      i := 0;
    } else {
      var j := SettlingEvent(c, Step(c, r, events[0]), events[1..]);
      i := j + 1;
      assert events[..i] == [events[0]] + events[1..][..j];
      assert ([events[0]] + events[1..][..j])[1..] == events[1..][..j];
    }
  }

  /** A failure, settled on or voted for, is the own finding or borne out by what the hub held when the PREPARE arrived. */
  lemma FailuresAreBorneOut(c: Pinned, own: Vote, inCap: bool, published: set<string>, events: seq<Event>, status: string) returns (i: nat)
    requires status != "ok"
    requires var t := After(c, Opened(c, own, inCap, published), events);
             (t.winner.Some? && t.status == status) || exists v :: v in t.signed && v != own && v.status == status
    ensures i < |events|
    ensures var s, e := After(c, Opened(c, own, inCap, published), events[..i]), events[i];
            || (OwnOutage(c, s, e) && status == "provider_error")
            || (OwnNoWinner(c, s, e) && status == "no_quorum")
            || (PreparedFailure(c, s, e) && e.m.status == status)
  {
    SettlesExactly(c, own, inCap, published, events);
    i := SettlingEvent(c, Opened(c, own, inCap, published), events);
  }
}
