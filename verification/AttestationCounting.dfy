/** How an outcome is settled and counted: whose signatures are held, the time and map, what the other events do, and what is
    published. */
module AttestationCounting {
  import opened JsValues
  import opened AttestationRound
  import opened AttestationSafety
  import opened AttestationVotes
  import opened AttestationOutcomes

  // ------------------------------------------------------ who is counted

  /** Its own proposal carries a signature over the settled vote and, for an ok winner, the winner's body and meta. */
  ghost predicate ProposedIt(c: Pinned, r: Round, t: Round, pk: string)
    requires t.winner.Some?
  {
    pk in r.proposals && c.verify(VoteCanonical(c, WinnerVote(t)), r.proposals[pk].sig, pk) && (t.status == "ok" ==> ProposesWinner(c, r, t, pk))
  }

  ghost predicate ProposesWinner(c: Pinned, r: Round, t: Round, pk: string)
    requires t.winner.Some?
  {
    pk in r.proposals && c.hash(r.proposals[pk].body) == c.hash(t.winner.value.body) && r.proposals[pk].meta == t.winner.value.meta
  }

  /** This hub signs the outcome its own round came to: a failure when it proposed at all; an ok winner under judge_model when
      it proposed a nonempty ok body, otherwise, once times or maps are signed, when it proposed the winner as ok. */
  ghost predicate SignsOwnOutcome(c: Pinned, r: Round, t: Round)
    requires t.winner.Some?
  {
    c.me in r.proposals &&
    if t.status != "ok" then true
    else if c.strategy == JudgeModel then r.proposals[c.me].body != [] && r.proposals[c.me].status == "ok"
    else (c.mirrorEra || r.admit.Some?) && r.proposals[c.me].status == "ok" && ProposesWinner(c, r, t, c.me)
  }

  /** And the outcome of a PREPARE: a failure it can vouch for; an ok winner under judge_model when it proposed a nonempty body,
      otherwise when body and meta are those it proposed. */
  ghost predicate SignsPrepared(c: Pinned, r: Round, t: Round)
    requires t.winner.Some?
  {
    c.me in r.proposals &&
    if t.status == "no_quorum" then true
    else if t.status == "provider_error" then r.proposals[c.me].status == "provider_error"
    else if c.strategy == JudgeModel then r.proposals[c.me].body != []
    else ProposesWinner(c, r, t, c.me)
  }

  /** Without an own match the earlier signers of the same canonical are counted with the one that corroborates them. */
  ghost predicate Corroborates(c: Pinned, r: Round, m: Envelope, pk: string) {
    var key := Candidate(c.hash(m.body), m.meta, StatedTime(c, m), StatedMap(c, m));
    m.status == "ok" && c.strategy != JudgeModel && !HeldAsOk(c, r, c.me, m) && key in r.candidates && pk in r.candidates[key]
  }

  /** Whose signatures are held once the event has settled the round. */
  ghost predicate CountedFor(c: Pinned, r: Round, e: Event, t: Round, pk: string)
    requires t.winner.Some?
  {
    if e.Prepare? then pk == e.m.sender || Corroborates(c, r, e.m, pk) || (pk == c.me && SignsPrepared(c, r, t))
    else ProposedIt(c, r, t, pk) || (pk == c.me && SignsOwnOutcome(c, r, t))
  }

  ghost predicate CountsExactly(c: Pinned, r: Round, e: Event, t: Round) {
    t.winner.Some? && forall pk :: pk in t.signatures <==> CountedFor(c, r, e, t, pk)
  }

  /** What the counting reads and writes is out of the quorum checks' reach. */
  ghost predicate SameCount(r: Round, t: Round) {
    t.signatures == r.signatures && t.winner == r.winner && t.status == r.status && t.et == r.et && t.admit == r.admit
  }

  lemma QuorumsCountNothing(c: Pinned, r: Round, sender: string)
    ensures SameCount(r, BroadcastAgreedPrepare(c, r)) && SameCount(r, FinishPrepare(c, r, sender))
  {
  }

  lemma SameCountCounts(c: Pinned, r: Round, e: Event, t: Round, u: Round)
    requires CountsExactly(c, r, e, t) && SameCount(t, u)
    ensures CountsExactly(c, r, e, u)
  {
    forall pk ensures pk in u.signatures <==> CountedFor(c, r, e, u, pk) {
      assert pk in t.signatures <==> CountedFor(c, r, e, t, pk);
    }
  }

  lemma CollectNonOkKeys(c: Pinned, s: Round, pk: string)
    requires s.winner.Some? && s.signatures == map[]
    ensures pk in CollectNonOk(c, s).signatures <==> pk in Transferred(c, s, false) || (pk == c.me && pk in s.proposals)
    ensures SameCount(s, CollectNonOk(c, s).(signatures := s.signatures))
  {
    assert s.signatures + Transferred(c, s, false) == Transferred(c, s, false);
  }

  lemma CollectOkKeys(c: Pinned, s: Round, pk: string)
    requires s.winner.Some? && s.signatures == map[]
    ensures pk in CollectOk(c, s).signatures <==>
            || pk in Transferred(c, s, true)
            || (pk == c.me && (JudgeReSignEligible(c, s) || (c.strategy != JudgeModel && (c.mirrorEra || s.admit.Some?)
                               && OwnOkMatches(c, s.proposals, c.hash(s.winner.value.body), s.winner.value.meta))))
    ensures SameCount(s, CollectOk(c, s).(signatures := s.signatures))
  {
    assert s.signatures + Transferred(c, s, true) == Transferred(c, s, true);
  }

  lemma SweptKeys(c: Pinned, s: Round, compare: bool, pk: string)
    requires s.winner.Some?
    ensures pk in Transferred(c, s, compare) <==>
            && pk in s.proposals && c.verify(VoteCanonical(c, WinnerVote(s)), s.proposals[pk].sig, pk)
            && (compare ==> c.hash(s.proposals[pk].body) == c.hash(s.winner.value.body) && s.proposals[pk].meta == s.winner.value.meta)
  {
  }

  lemma CollectNonOkCounts(c: Pinned, r: Round, status: string, stamp: nat, e: Event)
    requires r.signatures == map[] && status != "ok" && !e.Prepare?
    ensures CountsExactly(c, r, e, CollectNonOk(c, Settle(c, r, Winner([], ""), status, stamp)))
  {
    var s := Settle(c, r, Winner([], ""), status, stamp);
    var t := CollectNonOk(c, s);
    forall pk ensures pk in t.signatures <==> CountedFor(c, r, e, t, pk) {
      CollectNonOkKeys(c, s, pk);
      SweptKeys(c, s, false, pk);
    }
  }

  lemma CollectOkCounts(c: Pinned, r: Round, w: Winner, stamp: nat, e: Event)
    requires r.signatures == map[] && !e.Prepare?
    ensures CountsExactly(c, r, e, CollectOk(c, Settle(c, r, w, "ok", stamp)))
  {
    var s := Settle(c, r, w, "ok", stamp);
    var t := CollectOk(c, s);
    forall pk ensures pk in t.signatures <==> CountedFor(c, r, e, t, pk) {
      CollectOkKeys(c, s, pk);
      SweptKeys(c, s, true, pk);
    }
  }

  lemma AgreeingIsNotCounted(c: Pinned, r: Round, e: Event, t: Round)
    requires CountsExactly(c, r.(agreeing := false), e, t) && !e.Prepare?
    ensures CountsExactly(c, r, e, t)
  {
    forall pk ensures CountedFor(c, r.(agreeing := false), e, t, pk) == CountedFor(c, r, e, t, pk) {}
  }

  lemma OwnOutcomeCounts(c: Pinned, r: Round, e: Event)
    requires r.signatures == map[] && !e.Prepare? && Settles(c, r, e).Some?
    ensures CountsExactly(c, r, e, Step(c, r, e))
  {
    if e.Agree? {
      EnoughIsNeed(c, r);
      NonOkCounts(c, r, PROVIDER_ERROR, e.stamp, e);
    } else {
      VerdictCounts(c, r, e);
      AgreeingIsNotCounted(c, r, e, Step(c, r, e));
    }
  }

  lemma VerdictCounts(c: Pinned, r: Round, e: Event)
    requires r.signatures == map[] && e.Verdict? && Settles(c, r, e).Some?
    ensures CountsExactly(c, r.(agreeing := false), e, Step(c, r, e))
  {
    if e.verdict.None? {
      NonOkCounts(c, r.(agreeing := false), NO_QUORUM, e.stamp, e);
    } else {
      OkCounts(c, r.(agreeing := false), e.verdict.value, e.stamp, e);
    }
  }

  lemma NonOkCounts(c: Pinned, r: Round, status: string, stamp: nat, e: Event)
    requires r.signatures == map[] && status != "ok" && !e.Prepare? && Open(r) && status !in r.published
    ensures CountsExactly(c, r, e, EstablishNonOkWinner(c, r, status, stamp))
  {
    var t := CollectNonOk(c, Settle(c, r, Winner([], ""), status, stamp));
    CollectNonOkCounts(c, r, status, stamp, e);
    QuorumsCountNothing(c, t, c.me);
    SameCountCounts(c, r, e, t, BroadcastAgreedPrepare(c, t));
  }

  lemma OkCounts(c: Pinned, r: Round, w: Winner, stamp: nat, e: Event)
    requires r.signatures == map[] && !e.Prepare?
    ensures CountsExactly(c, r, e, EstablishOkWinner(c, r, w, stamp))
  {
    var t := CollectOk(c, Settle(c, r, w, "ok", stamp));
    CollectOkCounts(c, r, w, stamp, e);
    QuorumsCountNothing(c, t, c.me);
    SameCountCounts(c, r, e, t, BroadcastAgreedPrepare(c, t));
  }

  lemma SignCounts(c: Pinned, s: Round)
    requires s.winner.Some?
    ensures SignWinner(c, s).signatures.Keys == s.signatures.Keys + {c.me}
    ensures SameCount(s, SignWinner(c, s).(signatures := s.signatures))
  {
  }

  /** This hub endorses: its signature joins the ones held. */
  lemma EndorseCounts(c: Pinned, s: Round)
    requires s.winner.Some? && c.me in s.proposals
    ensures Endorse(c, s).signatures.Keys == s.signatures.Keys + {c.me}
    ensures SameCount(s, Endorse(c, s).(signatures := s.signatures))
  {
    SignCounts(c, s);
  }

  ghost predicate SignsOk(c: Pinned, s: Round)
    requires s.winner.Some?
  {
    c.me in s.proposals && if c.strategy == JudgeModel then s.proposals[c.me].body != [] else ProposesWinner(c, s, s, c.me)
  }

  lemma CoSignCounts(c: Pinned, s: Round, pk: string)
    requires s.winner.Some?
    ensures pk in CoSignOk(c, s).0.signatures <==> pk in s.signatures || (pk == c.me && SignsOk(c, s))
    ensures SameCount(s, CoSignOk(c, s).0.(signatures := s.signatures))
  {
    if c.me in s.proposals {
      if c.strategy == JudgeModel { SignCounts(c, s); } else { EndorseCounts(c, s); }
    }
  }

  lemma AdoptNonOkCounts(c: Pinned, r: Round, m: Envelope, k: Checks, derives: bool)
    requires r.signatures == map[] && PreparedFailure(c, r, Prepare(m, k, derives))
    ensures CountsExactly(c, r, Prepare(m, k, derives), AdoptNonOkPrepare(c, r, m, StatedMap(c, m), k, derives).0)
  {
    var e, t := Prepare(m, k, derives), AdoptNonOkPrepare(c, r, m, StatedMap(c, m), k, derives).0;
    AdoptNonOkKeys(c, r, m, k, derives);
    AdoptNonOkOutcome(c, r, m, k, derives);
    assert MayCoSignNonOk(c, r, m.status) <==> SignsPrepared(c, r, t);
    forall pk ensures pk in t.signatures <==> CountedFor(c, r, e, t, pk) {
      assert pk in t.signatures <==> pk in t.signatures.Keys;
    }
  }

  lemma AdoptNonOkKeys(c: Pinned, r: Round, m: Envelope, k: Checks, derives: bool)
    requires r.signatures == map[] && PreparedFailure(c, r, Prepare(m, k, derives))
    ensures AdoptNonOkPrepare(c, r, m, StatedMap(c, m), k, derives).0.signatures.Keys ==
            if MayCoSignNonOk(c, r, m.status) then {m.sender, c.me} else {m.sender}
  {
    SignedIsInWindow(c, m, k);
    MapAgreesIsAllowed(c, r, m);
    BorneOutIsDerived(c, r, m, derives);
    var s := Adopt(r, m, StatedTime(c, m), StatedMap(c, m));
    assert s.signatures.Keys == {m.sender};
    if c.me in s.proposals { EndorseCounts(c, s); }
  }

  /** The signatures an ok PREPARE brings before this hub adds its own. */
  lemma BroughtSignatures(c: Pinned, r: Round, m: Envelope, pk: string)
    requires r.signatures == map[] && m.sig.Some? && m.status == "ok"
    requires c.strategy == JudgeModel || HeldAsOk(c, r, c.me, m) || Seconded(c, r, m)
    ensures var held := if c.strategy == JudgeModel then (r, true) else Corroborated(c, r, m, StatedTime(c, m), StatedMap(c, m));
            pk in Adopt(held.0, m, StatedTime(c, m), StatedMap(c, m)).signatures <==> pk == m.sender || Corroborates(c, r, m, pk)
  {
    if c.strategy != JudgeModel && !HeldAsOk(c, r, c.me, m) {
      var key := Candidate(c.hash(m.body), m.meta, StatedTime(c, m), StatedMap(c, m));
      var after := Announce(r.candidates, key, m.sender, m.sig.value);
      AnnouncedVotes(r.candidates, key, m.sender, m.sig.value);
      SecondedIsTwo(c, r, m);
      assert r.signatures + after[key] == after[key];
    }
  }

  lemma AdoptOkCounts(c: Pinned, r: Round, m: Envelope, k: Checks, derives: bool)
    requires r.signatures == map[] && PreparedOk(c, r, Prepare(m, k, derives))
    ensures CountsExactly(c, r, Prepare(m, k, derives), AdoptOkPrepare(c, r, m, StatedMap(c, m), k).0)
  {
    AdoptedState(c, r, m, k, derives);
    var e, t := Prepare(m, k, derives), AdoptOkPrepare(c, r, m, StatedMap(c, m), k).0;
    var held := if c.strategy == JudgeModel then (r, true) else Corroborated(c, r, m, StatedTime(c, m), StatedMap(c, m));
    var s := Adopt(held.0, m, StatedTime(c, m), StatedMap(c, m));
    CoSignCounts(c, s, c.me);
    forall pk ensures pk in t.signatures <==> CountedFor(c, r, e, t, pk) {
      BroughtSignatures(c, r, m, pk);
      CoSignCounts(c, s, pk);
    }
  }

  lemma AdoptedState(c: Pinned, r: Round, m: Envelope, k: Checks, derives: bool)
    requires PreparedOk(c, r, Prepare(m, k, derives))
    ensures var held := if c.strategy == JudgeModel then (r, true) else Corroborated(c, r, m, StatedTime(c, m), StatedMap(c, m));
            && held.1 && held.0.proposals == r.proposals
            && AdoptOkPrepare(c, r, m, StatedMap(c, m), k) == CoSignOk(c, Adopt(held.0, m, StatedTime(c, m), StatedMap(c, m)))
  {
    SignedIsInWindow(c, m, k);
    MapAgreesIsAllowed(c, r, m);
    LeaderBodyHeld(c, r, m);
    CorroboratedOutcome(c, r, m);
    CorroboratedFrame(c, r, m, StatedTime(c, m), StatedMap(c, m));
  }

  lemma PreparedCounts(c: Pinned, r: Round, m: Envelope, k: Checks, derives: bool)
    requires r.signatures == map[] && Settles(c, r, Prepare(m, k, derives)).Some?
    ensures CountsExactly(c, r, Prepare(m, k, derives), Step(c, r, Prepare(m, k, derives)))
  {
    var e, a := Prepare(m, k, derives), Attempt(c, r, m, StatedMap(c, m), k, derives).0;
    SignedIsInWindow(c, m, k);
    if PreparedFailure(c, r, e) { AdoptNonOkCounts(c, r, m, k, derives); } else { AdoptOkCounts(c, r, m, k, derives); }
    QuorumsCountNothing(c, a, m.sender);
    PreparedStep(c, r, m, k, derives);
    if Step(c, r, e) != a { SameCountCounts(c, r, e, a, Step(c, r, e)); }
  }

  lemma PreparedStep(c: Pinned, r: Round, m: Envelope, k: Checks, derives: bool)
    requires Open(r) && m.sender in c.responsible && MapReadable(c, m, k) && k.bodyInCap
    ensures var a, t := Attempt(c, r, m, StatedMap(c, m), k, derives).0, Step(c, r, Prepare(m, k, derives));
            t == a || t == FinishPrepare(c, a, m.sender)
  {
    SignedIsInWindow(c, m, k);
  }

  /** Once an event settles an open round that holds no signature yet, exactly these are counted. */
  lemma SettlingCountsExactly(c: Pinned, r: Round, e: Event)
    requires r.signatures == map[] && Settles(c, r, e).Some?
    ensures CountsExactly(c, r, e, Step(c, r, e))
  {
    if e.Prepare? { PreparedCounts(c, r, e.m, e.k, e.derivesWinner); } else { OwnOutcomeCounts(c, r, e); }
  }

  // --------------------------------------------------------- the candidates

  predicate Announces(candidates: map<Candidate, map<string, string>>, k: Candidate, pk: string) { k in candidates && pk in candidates[k] }

  /** An announcement moves its sender to the announced canonical and leaves everybody else where they were; a canonical
      nobody announces any more is forgotten. */
  lemma AnnounceExactly(candidates: map<Candidate, map<string, string>>, key: Candidate, sender: string, sig: string, k: Candidate, pk: string)
    ensures var after := Announce(candidates, key, sender, sig);
            && (Announces(after, k, pk) <==> if pk == sender then k == key else Announces(candidates, k, pk))
            && after[key][sender] == sig
            && (Announces(after, k, pk) && pk != sender ==> after[k][pk] == candidates[k][pk])
    ensures k in Announce(candidates, key, sender, sig) && (k in candidates ==> candidates[k] != map[]) ==>
              exists q :: Announces(Announce(candidates, key, sender, sig), k, q)
  {
    var after := Announce(candidates, key, sender, sig);
    if Announces(candidates, k, pk) && pk != sender { assert pk in candidates[k] - {sender}; }
    if k in after && k in candidates && candidates[k] != map[] {
      assert after[k] != map[];
      var q :| q in after[k].Keys;
      assert Announces(after, k, q);
    }
    assert Announces(after, key, sender);
  }

  /** So a sender has one live candidate. */
  lemma OneLiveCandidate(candidates: map<Candidate, map<string, string>>, key: Candidate, sender: string, sig: string, k: Candidate, l: Candidate, pk: string)
    requires Announces(candidates, k, pk) && Announces(candidates, l, pk) ==> k == l
    ensures var after := Announce(candidates, key, sender, sig); Announces(after, k, pk) && Announces(after, l, pk) ==> k == l
  {
    AnnounceExactly(candidates, key, sender, sig, k, pk);
    AnnounceExactly(candidates, key, sender, sig, l, pk);
  }

  // ------------------------------------------------- the settled time and map

  /** The elected leader's proposal, if it is held. */
  predicate FromLeader(c: Pinned, r: Round, p: Proposal) {
    match c.leader
    case None => false
    case Some(leader) => leader in r.proposals && r.proposals[leader] == p
  }

  /** The time and map an outcome is settled with. A PREPARE's are those it states. Otherwise, in the mirror era, a judged
      outcome takes this hub's stamp and any other the leader's time, the own one where the leader's is missing; and in the
      admission era the map is the leader's, or the own one. */
  ghost predicate SettledWith(c: Pinned, r: Round, e: Event, t: Round) {
    match e
    case Prepare(m, _, _) => t.et == StatedTime(c, m) && t.admit == StatedMap(c, m)
    case Agree(_, stamp) => TakenFrom(c, r, t, "provider_error", stamp)
    case Verdict(verdict, stamp) => TakenFrom(c, r, t, if verdict.Some? then "ok" else "no_quorum", stamp)
    case _ => false
  }

  ghost predicate TakenFrom(c: Pinned, r: Round, t: Round, status: string, stamp: nat) {
    && (!c.mirrorEra ==> t.et == r.et)
    && (c.mirrorEra && c.strategy == JudgeModel && status != "provider_error" ==> t.et == Some(stamp))
    && (c.mirrorEra && !(c.strategy == JudgeModel && status != "provider_error") ==>
          if exists p :: FromLeader(c, r, p) && p.et.Some? then exists p :: FromLeader(c, r, p) && t.et == p.et else t.et == r.et)
    && (r.admit.None? ==> t.admit.None?)
    && (r.admit.Some? ==>
          if exists p :: FromLeader(c, r, p) && p.admit.Some? then exists p :: FromLeader(c, r, p) && t.admit == p.admit else t.admit == r.admit)
  }

  lemma SettleTakes(c: Pinned, r: Round, w: Winner, status: string, stamp: nat)
    ensures TakenFrom(c, r, Settle(c, r, w, status, stamp), status, stamp)
  {
    if c.leader.Some? && c.leader.value in r.proposals { assert FromLeader(c, r, r.proposals[c.leader.value]); }
  }

  lemma TakenStays(c: Pinned, r: Round, s: Round, t: Round, status: string, stamp: nat)
    requires TakenFrom(c, r, s, status, stamp) && t.et == s.et && t.admit == s.admit
    ensures TakenFrom(c, r, t, status, stamp)
  {
  }

  lemma NonOkTakes(c: Pinned, r: Round, status: string, stamp: nat)
    requires r.signatures == map[] && Open(r) && status !in r.published
    ensures TakenFrom(c, r, EstablishNonOkWinner(c, r, status, stamp), status, stamp)
  {
    var s := Settle(c, r, Winner([], ""), status, stamp);
    SettleTakes(c, r, Winner([], ""), status, stamp);
    CollectNonOkKeys(c, s, c.me);
    QuorumsCountNothing(c, CollectNonOk(c, s), c.me);
    TakenStays(c, r, s, EstablishNonOkWinner(c, r, status, stamp), status, stamp);
  }

  lemma OkTakes(c: Pinned, r: Round, w: Winner, stamp: nat)
    requires r.signatures == map[]
    ensures TakenFrom(c, r, EstablishOkWinner(c, r, w, stamp), "ok", stamp)
  {
    var s := Settle(c, r, w, "ok", stamp);
    SettleTakes(c, r, w, "ok", stamp);
    CollectOkKeys(c, s, c.me);
    QuorumsCountNothing(c, CollectOk(c, s), c.me);
    TakenStays(c, r, s, EstablishOkWinner(c, r, w, stamp), "ok", stamp);
  }

  lemma AgreeingIsNotTaken(c: Pinned, r: Round, t: Round, status: string, stamp: nat)
    requires TakenFrom(c, r.(agreeing := false), t, status, stamp)
    ensures TakenFrom(c, r, t, status, stamp)
  {
    forall p ensures FromLeader(c, r.(agreeing := false), p) == FromLeader(c, r, p) {}
  }

  lemma PreparedTakes(c: Pinned, r: Round, m: Envelope, k: Checks, derives: bool)
    requires Settles(c, r, Prepare(m, k, derives)).Some?
    ensures var t := Step(c, r, Prepare(m, k, derives)); t.et == StatedTime(c, m) && t.admit == StatedMap(c, m)
  {
    var e, a := Prepare(m, k, derives), Attempt(c, r, m, StatedMap(c, m), k, derives).0;
    PreparedStep(c, r, m, k, derives);
    QuorumsCountNothing(c, a, m.sender);
    if PreparedFailure(c, r, e) { AdoptNonOkTakes(c, r, m, k, derives); } else { AdoptOkTakes(c, r, m, k, derives); }
  }

  lemma AdoptNonOkTakes(c: Pinned, r: Round, m: Envelope, k: Checks, derives: bool)
    requires PreparedFailure(c, r, Prepare(m, k, derives))
    ensures var t := AdoptNonOkPrepare(c, r, m, StatedMap(c, m), k, derives).0; t.et == StatedTime(c, m) && t.admit == StatedMap(c, m)
  {
    SignedIsInWindow(c, m, k);
    MapAgreesIsAllowed(c, r, m);
    BorneOutIsDerived(c, r, m, derives);
    var s := Adopt(r, m, StatedTime(c, m), StatedMap(c, m));
    if c.me in s.proposals { EndorseCounts(c, s); }
  }

  lemma AdoptOkTakes(c: Pinned, r: Round, m: Envelope, k: Checks, derives: bool)
    requires PreparedOk(c, r, Prepare(m, k, derives))
    ensures var t := AdoptOkPrepare(c, r, m, StatedMap(c, m), k).0; t.et == StatedTime(c, m) && t.admit == StatedMap(c, m)
  {
    AdoptedState(c, r, m, k, derives);
    var held := if c.strategy == JudgeModel then (r, true) else Corroborated(c, r, m, StatedTime(c, m), StatedMap(c, m));
    CoSignCounts(c, Adopt(held.0, m, StatedTime(c, m), StatedMap(c, m)), c.me);
  }

  lemma SettlesWith(c: Pinned, r: Round, e: Event)
    requires r.signatures == map[] && Settles(c, r, e).Some?
    ensures SettledWith(c, r, e, Step(c, r, e))
  {
    match e
    case Agree(_, stamp) =>
      EnoughIsNeed(c, r);
      NonOkTakes(c, r, PROVIDER_ERROR, stamp);
    case Verdict(verdict, stamp) =>
      var s := r.(agreeing := false);
      if verdict.None? { NonOkTakes(c, s, NO_QUORUM, stamp); } else { OkTakes(c, s, verdict.value, stamp); }
      AgreeingIsNotTaken(c, r, Step(c, r, e), if verdict.Some? then "ok" else "no_quorum", stamp);
    case Prepare(m, k, derives) => PreparedTakes(c, r, m, k, derives);
    case _ =>
  }

  // --------------------------------------------------------- the other events

  /** A PROPOSE is stored exactly when the round is not over, its sender is a member that has not proposed and signed what it
      states, and its map, time and body are within bounds. */
  ghost predicate StoresProposal(c: Pinned, r: Round, m: Envelope, k: Checks) {
    && !r.finalized && m.sender in c.responsible && m.sender !in r.proposals && k.bodyInCap && MapReadable(c, m, k)
    && (c.mirrorEra ==> m.et.Some? && k.inWindow)
    && c.verify(Canonical(c, c.hash(m.body), m.status, m.meta, StatedTime(c, m), StatedMap(c, m)), if m.sig.Some? then m.sig.value else "", m.sender)
  }

  lemma ProposesExactly(c: Pinned, r: Round, m: Envelope, k: Checks)
    ensures var t := Step(c, r, Propose(m, k));
            t == if StoresProposal(c, r, m, k)
                 then r.(proposals := r.proposals[m.sender := Proposal(m.body, m.meta, if m.sig.Some? then m.sig.value else "", m.status,
                                                                       StatedTime(c, m), StatedMap(c, m))])
                 else r
  {
    SignedIsInWindow(c, m, k);
  }

  /** The own agree() starts exactly in a ripe round that holds an ok proposal, where the provider is served and this hub need
      not leave it to the leader. */
  lemma AgreesExactly(c: Pinned, r: Round, hasModule: bool, stamp: nat)
    ensures Step(c, r, Agree(hasModule, stamp)).agreeing <==>
            r.agreeing || (Ripe(c, r) && SomeOk(r) && hasModule && !(c.strategy == JudgeModel && c.leader.Some? && c.leader != Some(c.me)))
  {
    EnoughIsNeed(c, r);
    NonOkAgreeing(c, r, PROVIDER_ERROR, stamp);
  }

  lemma NonOkAgreeing(c: Pinned, r: Round, status: string, stamp: nat)
    ensures EstablishNonOkWinner(c, r, status, stamp).agreeing == r.agreeing
  {
    var s := CollectNonOk(c, Settle(c, r, Winner([], ""), status, stamp));
    assert BroadcastAgreedPrepare(c, s).agreeing == s.agreeing;
  }

  /** The signatures of a settled round after a member's envelope: its own too, when it covers the settled vote. */
  function WithLate(c: Pinned, r: Round, m: Envelope): map<string, string>
    requires r.winner.Some?
  {
    if m.sig.Some? && c.verify(VoteCanonical(c, WinnerVote(r)), m.sig.value, m.sender) then r.signatures[m.sender := m.sig.value] else r.signatures
  }

  /** A member's PREPARE that reaches a settled round brings its signature in, whatever it announces itself. */
  lemma LatePrepareExactly(c: Pinned, r: Round, m: Envelope, k: Checks, derives: bool)
    requires r.winner.Some? && !r.finalized
    ensures Step(c, r, Prepare(m, k, derives)).signatures ==
            if m.sender in c.responsible && MapReadable(c, m, k) && k.bodyInCap then WithLate(c, r, m) else r.signatures
  {
    SignedIsInWindow(c, m, k);
    QuorumsCountNothing(c, CountSignature(c, r, m), m.sender);
  }

  lemma CommitQuorumCountsNothing(c: Pinned, r: Round)
    requires r.winner.Some?
    ensures CheckCommitQuorum(c, r).signatures == r.signatures
  {
  }

  lemma MapStated(c: Pinned, r: Round, m: Envelope, k: Checks)
    ensures ReadWireAdmitBlocks(c, m, k) == Some(r.admit) <==> MapReadable(c, m, k) && StatedMap(c, m) == r.admit
  {
    SignedIsInWindow(c, m, k);
  }

  /** And a COMMIT that states the settled map. */
  lemma LateCommitExactly(c: Pinned, r: Round, m: Envelope, k: Checks)
    requires r.winner.Some? && !r.finalized
    ensures Step(c, r, Commit(m, k)).signatures ==
            if m.sender in c.responsible && MapReadable(c, m, k) && StatedMap(c, m) == r.admit then WithLate(c, r, m) else r.signatures
  {
    MapStated(c, r, m, k);
    if m.sender in c.responsible && ReadWireAdmitBlocks(c, m, k) == Some(r.admit) {
      var s := CountSignature(c, r, m);
      CommitQuorumCountsNothing(c, s.(commits := s.commits + {m.sender}));
    }
  }

  // -------------------------------------------------------- what is published

  /** Nothing is emitted twice, and an emitted failure, nothing else, joins the published ones. */
  ghost predicate Publishes(r: Round, t: Round) {
    if t.emitted == r.emitted then t.published == r.published
    else
      && r.emitted.None? && t.emitted.Some?
      && t.published == if t.emitted.value.status == "ok" then r.published else r.published + {t.emitted.value.status}
  }

  ghost predicate Alike(r: Round, t: Round) { t.emitted == r.emitted && t.published == r.published && t.finalized == r.finalized }

  lemma CommitQuorumPublishes(c: Pinned, r: Round)
    requires r.winner.Some? && r.finalized == r.emitted.Some?
    ensures Publishes(r, CheckCommitQuorum(c, r)) && CheckCommitQuorum(c, r).finalized == CheckCommitQuorum(c, r).emitted.Some?
  {
  }

  lemma QuorumPublishes(c: Pinned, r: Round)
    requires r.finalized == r.emitted.Some?
    ensures Publishes(r, CheckPrepareQuorum(c, r)) && CheckPrepareQuorum(c, r).finalized == CheckPrepareQuorum(c, r).emitted.Some?
  {
    if r.winner.Some? { CommitQuorumPublishes(c, r.(commitSent := true, commits := r.commits + {c.me})); }
  }

  /** Published through a round that had emitted as much. */
  ghost predicate PublishesFrom(r: Round, t: Round) { Publishes(r, t) && t.finalized == t.emitted.Some? }

  lemma AlikeThenBroadcast(c: Pinned, r: Round, s: Round)
    requires r.finalized == r.emitted.Some? && Alike(r, s)
    ensures PublishesFrom(r, BroadcastAgreedPrepare(c, s))
  {
    QuorumPublishes(c, s.(prepares := s.prepares + {c.me}));
  }

  lemma AlikeThenFinish(c: Pinned, r: Round, s: Round, sender: string)
    requires r.finalized == r.emitted.Some? && Alike(r, s)
    ensures PublishesFrom(r, FinishPrepare(c, s, sender))
  {
    var t := s.(prepares := s.prepares + {sender});
    QuorumPublishes(c, t);
    if CheckPrepareQuorum(c, t).winner.Some? { CommitQuorumPublishes(c, CheckPrepareQuorum(c, t)); }
  }

  lemma CollectAlike(c: Pinned, s: Round)
    requires s.winner.Some?
    ensures Alike(s, CollectOk(c, s)) && Alike(s, CollectNonOk(c, s))
  {
  }

  lemma CoSignAlike(c: Pinned, s: Round)
    requires s.winner.Some?
    ensures c.me in s.proposals ==> Alike(s, Endorse(c, s))
    ensures Alike(s, CoSignOk(c, s).0)
  {
  }

  lemma CorroboratedAlike(c: Pinned, r: Round, m: Envelope, et: Option<nat>, admit: Option<string>)
    requires m.sig.Some?
    ensures Alike(r, Corroborated(c, r, m, et, admit).0)
  {
  }

  lemma AttemptAlike(c: Pinned, r: Round, m: Envelope, admit: Option<string>, k: Checks, derives: bool)
    requires r.winner.None?
    ensures Alike(r, Attempt(c, r, m, admit, k, derives).0)
  {
    var et := ReadWireEffectiveTime(c, m);
    if m.status != "ok" {
      if AdoptNonOkPrepare(c, r, m, admit, k, derives).1 { CoSignAlike(c, Adopt(r, m, et.value, admit)); }
    } else if AdoptOkPrepare(c, r, m, admit, k) != (r, false) {
      AdoptOkAlike(c, r, m, admit, k);
    }
  }

  lemma AdoptOkAlike(c: Pinned, r: Round, m: Envelope, admit: Option<string>, k: Checks)
    requires r.winner.None? && m.sig.Some? && ReadWireEffectiveTime(c, m).Some?
    ensures Alike(r, AdoptOkPrepare(c, r, m, admit, k).0)
  {
    var et := ReadWireEffectiveTime(c, m);
    var held := if c.strategy == JudgeModel then (r, true) else Corroborated(c, r, m, et.value, admit);
    CorroboratedAlike(c, r, m, et.value, admit);
    CoSignAlike(c, Adopt(held.0, m, et.value, admit));
  }

  lemma StepPublishes(c: Pinned, r: Round, e: Event)
    requires r.finalized == r.emitted.Some?
    ensures PublishesFrom(r, Step(c, r, e))
  {
    match e
    case Propose(m, k) => ProposesExactly(c, r, m, k);
    case Agree(hasModule, stamp) => NonOkPublishes(c, r, PROVIDER_ERROR, stamp);
    case Verdict(verdict, stamp) =>
      var s := r.(agreeing := false);
      NonOkPublishes(c, s, NO_QUORUM, stamp);
      if verdict.Some? { OkPublishes(c, s, verdict.value, stamp); }
    case Prepare(m, k, derives) => PreparePublishes(c, r, m, k, derives);
    case Commit(m, k) => CommitPublishes(c, r, m, k);
  }

  lemma CommitPublishes(c: Pinned, r: Round, m: Envelope, k: Checks)
    requires r.finalized == r.emitted.Some?
    ensures PublishesFrom(r, HandleCommit(c, r, m, k))
  {
    if r.winner.Some? {
      var s := CountSignature(c, r, m);
      CommitQuorumPublishes(c, s.(commits := s.commits + {m.sender}));
    }
  }

  lemma NonOkPublishes(c: Pinned, r: Round, status: string, stamp: nat)
    requires r.finalized == r.emitted.Some?
    ensures PublishesFrom(r, EstablishNonOkWinner(c, r, status, stamp))
  {
    var s := Settle(c, r, Winner([], ""), status, stamp);
    CollectAlike(c, s);
    AlikeThenBroadcast(c, r, CollectNonOk(c, s));
  }

  lemma OkPublishes(c: Pinned, r: Round, w: Winner, stamp: nat)
    requires r.finalized == r.emitted.Some?
    ensures PublishesFrom(r, EstablishOkWinner(c, r, w, stamp))
  {
    var s := Settle(c, r, w, "ok", stamp);
    CollectAlike(c, s);
    AlikeThenBroadcast(c, r, CollectOk(c, s));
  }

  lemma PreparePublishes(c: Pinned, r: Round, m: Envelope, k: Checks, derives: bool)
    requires r.finalized == r.emitted.Some?
    ensures PublishesFrom(r, HandlePrepare(c, r, m, k, derives))
  {
    var admit := ReadWireAdmitBlocks(c, m, k);
    if !r.finalized && m.sender in c.responsible && admit.Some? && k.bodyInCap {
      if r.winner.Some? {
        AlikeThenFinish(c, r, CountSignature(c, r, m), m.sender);
      } else {
        AttemptAlike(c, r, m, admit.value, k, derives);
        AlikeThenFinish(c, r, Attempt(c, r, m, admit.value, k, derives).0, m.sender);
      }
    }
  }

  lemma {:induction false} EveryRunPublishes(c: Pinned, r: Round, events: seq<Event>)
    requires r.finalized == r.emitted.Some?
    ensures PublishesFrom(r, After(c, r, events))
    decreases |events|
  {
    if events != [] {
      StepPublishes(c, r, events[0]);
      EveryRunPublishes(c, Step(c, r, events[0]), events[1..]);
    }
  }

  /** Over every run the published failures are those known at the start and the one the round itself emitted, if any. */
  lemma PublishedExactly(c: Pinned, own: Vote, inCap: bool, published: set<string>, events: seq<Event>)
    ensures var t := After(c, Opened(c, own, inCap, published), events);
            t.published == if t.emitted.Some? && t.emitted.value.status != "ok" then published + {t.emitted.value.status} else published
  {
    EveryRunPublishes(c, Opened(c, own, inCap, published), events);
  }
}
