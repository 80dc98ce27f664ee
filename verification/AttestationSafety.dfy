/** What every reachable attestation round keeps, and what its signed bytes decide. */
module AttestationSafety {
  import AdmissionMap
  import opened Facts
  import opened JsValues
  import opened Ordering
  import opened ResponseCanonical
  import opened AttestationRound

  // -------------------------------------------------------------- invariant

  ghost predicate SigsOver(c: Pinned, sigs: map<string, string>, bytes: string) {
    forall pk :: pk in sigs ==> pk in c.responsible && c.verify(bytes, sigs[pk], pk)
  }

  predicate EraFields(c: Pinned, et: Option<nat>, admit: Option<string>) {
    et.Some? == c.mirrorEra && admit.Some? == c.admissionEra && (admit.Some? ==> AdmitText(admit.value))
  }

  ghost predicate Shaped(c: Pinned, r: Round) {
    && EraFields(c, r.et, r.admit)
    && forall pk :: pk in r.proposals ==> pk in c.responsible && EraFields(c, r.proposals[pk].et, r.proposals[pk].admit)
  }

  function CandidateBytes(c: Pinned, k: Candidate): string { Canonical(c, k.hash, "ok", k.meta, k.et, k.admit) }

  ghost predicate TableOver(c: Pinned, candidates: map<Candidate, map<string, string>>) {
    forall k :: k in candidates ==> SigsOver(c, candidates[k], CandidateBytes(c, k))
  }

  /** Every signature held as a candidate covers the canonical its key names. */
  ghost predicate CandidatesOver(c: Pinned, r: Round) { TableOver(c, r.candidates) }

  predicate Outcome(status: string) { status == "ok" || status == NO_QUORUM || status == PROVIDER_ERROR }

  /** No signature is held before a winner is; from then on each covers the winner's canonical. */
  ghost predicate Aligned(c: Pinned, r: Round) {
    match r.winner
    case None => r.signatures == map[] && !r.commitSent && !r.finalized
    case Some(_) => Outcome(r.status) && SigsOver(c, r.signatures, VoteCanonical(c, WinnerVote(r)))
  }

  ghost predicate SignersOver(c: Pinned, signers: seq<Signer>, bytes: string) {
    && (forall i :: 0 <= i < |signers| ==> signers[i].pubkey in c.responsible && c.verify(bytes, signers[i].sig, signers[i].pubkey))
    && (forall i, j :: 0 <= i < j < |signers| ==> signers[i].pubkey != signers[j].pubkey && StrLe(signers[i].pubkey, signers[j].pubkey))
  }

  /** What was emitted: the winner, and exactly the needed number of distinct signers, each covering it. */
  ghost predicate EmittedValid(c: Pinned, r: Round) {
    && r.finalized == r.emitted.Some?
    && (r.emitted.Some? ==>
          && r.winner.Some?
          && r.emitted.value == Finalized(r.winner.value, r.status, r.emitted.value.signers, r.et, r.admit)
          && |r.emitted.value.signers| == Needed(c)
          && SignersOver(c, r.emitted.value.signers, VoteCanonical(c, WinnerVote(r))))
  }

  ghost predicate Inv(c: Pinned, r: Round) {
    Shaped(c, r) && CandidatesOver(c, r) && Aligned(c, r) && EmittedValid(c, r)
  }

  /** This hub belongs to the responsible set and its own signatures verify. */
  ghost predicate OwnIdentity(c: Pinned) {
    c.me in c.responsible && forall bytes :: c.verify(bytes, c.sign(bytes), c.me)
  }

  // ---------------------------------------------------------------- quorums

  lemma {:induction false} SelectedAre(signatures: map<string, string>, n: nat)
    ensures |Selected(signatures, n)| == Min(n, |signatures|)
    ensures forall i :: 0 <= i < |Selected(signatures, n)| ==>
              Selected(signatures, n)[i].pubkey in signatures && Selected(signatures, n)[i].sig == signatures[Selected(signatures, n)[i].pubkey]
    ensures forall i, j :: 0 <= i < j < |Selected(signatures, n)| ==>
              Selected(signatures, n)[i].pubkey != Selected(signatures, n)[j].pubkey
              && StrLe(Selected(signatures, n)[i].pubkey, Selected(signatures, n)[j].pubkey)
    decreases n
  {
    assert |signatures.Keys| == |signatures|;
    if n > 0 && signatures.Keys != {} {
      var k := Least(signatures.Keys);
      var rest := signatures - {k};
      assert rest.Keys == signatures.Keys - {k};
      assert |rest.Keys| == |rest|;
      SelectedAre(rest, n - 1);
      var tail := Selected(rest, n - 1);
      assert Selected(signatures, n) == [Signer(k, signatures[k])] + tail;
    }
  }

  lemma CommitQuorumKeeps(c: Pinned, r: Round)
    requires Inv(c, r) && r.winner.Some?
    ensures Inv(c, CheckCommitQuorum(c, r))
  {
    SelectedAre(r.signatures, Needed(c));
  }

  lemma PrepareQuorumKeeps(c: Pinned, r: Round)
    requires Inv(c, r)
    ensures Inv(c, CheckPrepareQuorum(c, r))
  {
    if r.winner.Some? { CommitQuorumKeeps(c, r.(commitSent := true, commits := r.commits + {c.me})); }
  }

  lemma FinishPrepareKeeps(c: Pinned, r: Round, sender: string)
    requires Inv(c, r)
    ensures Inv(c, FinishPrepare(c, r, sender))
  {
    var s := r.(prepares := r.prepares + {sender});
    PrepareQuorumKeeps(c, s);
    var t := CheckPrepareQuorum(c, s);
    if t.winner.Some? { CommitQuorumKeeps(c, t); }
  }

  // ---------------------------------------------------------------- signing

  /** One more signature over the winner. */
  lemma CountKeeps(c: Pinned, r: Round, pk: string, sig: string)
    requires Inv(c, r) && r.winner.Some? && pk in c.responsible && c.verify(VoteCanonical(c, WinnerVote(r)), sig, pk)
    ensures Inv(c, r.(signatures := r.signatures[pk := sig]))
  {
  }

  /** Votes and the history of what was signed are not read by the invariant. */
  lemma TalliesKeep(c: Pinned, r: Round, prepares: set<string>, signed: set<Vote>)
    requires Inv(c, r)
    ensures Inv(c, r.(prepares := prepares, signed := signed))
  {
  }

  lemma SignKeeps(c: Pinned, r: Round)
    requires Inv(c, r) && OwnIdentity(c) && r.winner.Some?
    ensures Inv(c, SignWinner(c, r))
  {
    var sig := c.sign(VoteCanonical(c, WinnerVote(r)));
    CountKeeps(c, r, c.me, sig);
    TalliesKeep(c, r.(signatures := r.signatures[c.me := sig]), r.prepares, r.signed + {WinnerVote(r)});
  }

  lemma EndorseKeeps(c: Pinned, r: Round)
    requires Inv(c, r) && OwnIdentity(c) && r.winner.Some? && c.me in r.proposals
    ensures Inv(c, Endorse(c, r))
  {
    var own := r.proposals[c.me].sig;
    if c.verify(VoteCanonical(c, WinnerVote(r)), own, c.me) {
      CountKeeps(c, r, c.me, own);
      TalliesKeep(c, r.(signatures := r.signatures[c.me := own]), r.prepares + {c.me}, r.signed);
    } else {
      SignKeeps(c, r);
      TalliesKeep(c, SignWinner(c, r), r.prepares + {c.me}, r.signed + {WinnerVote(r)});
    }
  }

  lemma SettleKeeps(c: Pinned, r: Round, w: Winner, status: string, stamp: nat)
    requires Inv(c, r) && r.winner.None? && Outcome(status)
    ensures Inv(c, Settle(c, r, w, status, stamp))
  {
  }

  lemma SweepKeeps(c: Pinned, s: Round, compare: bool)
    requires Inv(c, s) && s.winner.Some?
    ensures Inv(c, s.(signatures := s.signatures + Transferred(c, s, compare)))
  {
  }

  lemma CollectOkKeeps(c: Pinned, s: Round)
    requires Inv(c, s) && OwnIdentity(c) && s.winner.Some?
    ensures Inv(c, CollectOk(c, s))
  {
    SweepKeeps(c, s, true);
    var t := s.(signatures := s.signatures + Transferred(c, s, true));
    SignKeeps(c, t);
    var u := if JudgeReSignEligible(c, t) then SignWinner(c, t) else t;
    SignKeeps(c, u);
  }

  lemma CollectNonOkKeeps(c: Pinned, s: Round)
    requires Inv(c, s) && OwnIdentity(c) && s.winner.Some?
    ensures Inv(c, CollectNonOk(c, s))
  {
    SweepKeeps(c, s, false);
    SignKeeps(c, s.(signatures := s.signatures + Transferred(c, s, false)));
  }

  lemma BroadcastKeeps(c: Pinned, r: Round)
    requires Inv(c, r)
    ensures Inv(c, BroadcastAgreedPrepare(c, r))
  {
    PrepareQuorumKeeps(c, r.(prepares := r.prepares + {c.me}));
  }

  lemma EstablishNonOkKeeps(c: Pinned, r: Round, status: string, stamp: nat)
    requires Inv(c, r) && OwnIdentity(c) && Outcome(status)
    ensures Inv(c, EstablishNonOkWinner(c, r, status, stamp))
  {
    if r.winner.None? {
      var s := Settle(c, r, Winner([], ""), status, stamp);
      SettleKeeps(c, r, Winner([], ""), status, stamp);
      CollectNonOkKeeps(c, s);
      BroadcastKeeps(c, CollectNonOk(c, s));
    }
  }

  lemma EstablishOkKeeps(c: Pinned, r: Round, w: Winner, stamp: nat)
    requires Inv(c, r) && OwnIdentity(c) && r.winner.None?
    ensures Inv(c, EstablishOkWinner(c, r, w, stamp))
  {
    var s := Settle(c, r, w, "ok", stamp);
    SettleKeeps(c, r, w, "ok", stamp);
    CollectOkKeeps(c, s);
    BroadcastKeeps(c, CollectOk(c, s));
  }

  // --------------------------------------------------------------- handlers

  lemma AgreeKeeps(c: Pinned, r: Round, hasModule: bool, stamp: nat)
    requires Inv(c, r) && OwnIdentity(c)
    ensures Inv(c, StartAgree(c, r, hasModule, stamp))
  {
    EstablishNonOkKeeps(c, r, PROVIDER_ERROR, stamp);
  }

  lemma VerdictKeeps(c: Pinned, r: Round, verdict: Option<Winner>, stamp: nat)
    requires Inv(c, r) && OwnIdentity(c)
    ensures Inv(c, FinishAgree(c, r, verdict, stamp))
  {
    var s := r.(agreeing := false);
    EstablishNonOkKeeps(c, s, NO_QUORUM, stamp);
    if s.winner.None? && verdict.Some? { EstablishOkKeeps(c, s, verdict.value, stamp); }
  }

  lemma ProposeKeeps(c: Pinned, r: Round, m: Envelope, k: Checks)
    requires Inv(c, r)
    ensures Inv(c, HandlePropose(c, r, m, k))
  {
  }

  lemma CountSignatureKeeps(c: Pinned, r: Round, m: Envelope)
    requires Inv(c, r) && r.winner.Some? && m.sender in c.responsible
    ensures Inv(c, CountSignature(c, r, m))
  {
  }

  lemma CommitKeeps(c: Pinned, r: Round, m: Envelope, k: Checks)
    requires Inv(c, r)
    ensures Inv(c, HandleCommit(c, r, m, k))
  {
    if r.winner.Some? && m.sender in c.responsible {
      CountSignatureKeeps(c, r, m);
      var s := CountSignature(c, r, m);
      CommitQuorumKeeps(c, s.(commits := s.commits + {m.sender}));
    }
  }

  /** Adopting a verified PREPARE over signatures that already cover its bytes. */
  lemma AdoptKeeps(c: Pinned, r: Round, m: Envelope, et: Option<nat>, admit: Option<string>)
    requires Shaped(c, r) && CandidatesOver(c, r) && !r.finalized && r.emitted.None?
    requires EraFields(c, et, admit) && Outcome(m.status) && m.sender in c.responsible && m.sig.Some?
    requires c.verify(Canonical(c, c.hash(m.body), m.status, m.meta, et, admit), m.sig.value, m.sender)
    requires SigsOver(c, r.signatures, Canonical(c, c.hash(m.body), m.status, m.meta, et, admit))
    ensures Inv(c, Adopt(r, m, et, admit))
  {
  }

  lemma AdoptNonOkKeeps(c: Pinned, r: Round, m: Envelope, admit: Option<string>, k: Checks, derives: bool)
    requires Inv(c, r) && OwnIdentity(c) && r.winner.None? && m.sender in c.responsible
    requires ReadWireAdmitBlocks(c, m, k) == Some(admit)
    ensures Inv(c, AdoptNonOkPrepare(c, r, m, admit, k, derives).0)
  {
    var et := ReadWireEffectiveTime(c, m);
    if AdoptNonOkPrepare(c, r, m, admit, k, derives).1 {
      AdoptKeeps(c, r, m, et.value, admit);
      var s := Adopt(r, m, et.value, admit);
      if c.me in s.proposals { EndorseKeeps(c, s); }
    }
  }

  lemma SubsetOver(c: Pinned, sigs: map<string, string>, sender: string, bytes: string)
    requires SigsOver(c, sigs, bytes)
    ensures SigsOver(c, sigs - {sender}, bytes)
  {
  }

  lemma AnnounceOver(c: Pinned, candidates: map<Candidate, map<string, string>>, key: Candidate, sender: string, sig: string, k: Candidate)
    requires TableOver(c, candidates)
    requires sender in c.responsible && c.verify(CandidateBytes(c, key), sig, sender)
    requires k in Announce(candidates, key, sender, sig)
    ensures SigsOver(c, Announce(candidates, key, sender, sig)[k], CandidateBytes(c, k))
  {
    if k in candidates { SubsetOver(c, candidates[k], sender, CandidateBytes(c, k)); }
  }

  lemma AnnouncedOver(c: Pinned, candidates: map<Candidate, map<string, string>>, key: Candidate, sender: string, sig: string)
    requires TableOver(c, candidates) && sender in c.responsible && c.verify(CandidateBytes(c, key), sig, sender)
    ensures TableOver(c, Announce(candidates, key, sender, sig))
  {
    var after := Announce(candidates, key, sender, sig);
    forall k | k in after ensures SigsOver(c, after[k], CandidateBytes(c, k)) {
      AnnounceOver(c, candidates, key, sender, sig, k);
    }
  }

  /** Candidates grouped under one key cover one canonical, and so do the signatures a corroborated PREPARE brings. */
  lemma CorroboratedOver(c: Pinned, r: Round, m: Envelope, et: Option<nat>, admit: Option<string>, key: Candidate)
    requires CandidatesOver(c, r) && r.signatures == map[] && m.sender in c.responsible && m.sig.Some?
    requires key == Candidate(c.hash(m.body), m.meta, et, admit) && c.verify(CandidateBytes(c, key), m.sig.value, m.sender)
    ensures var h := Corroborated(c, r, m, et, admit);
            && CandidatesOver(c, h.0)
            && (h.1 ==> SigsOver(c, h.0.signatures, CandidateBytes(c, key)))
            && (!h.1 ==> h.0.signatures == r.signatures)
  {
    if !OwnOkMatches(c, r.proposals, c.hash(m.body), m.meta) {
      AnnouncedOver(c, r.candidates, key, m.sender, m.sig.value);
      var after := Announce(r.candidates, key, m.sender, m.sig.value);
      var votes := after[key];
      assert r.signatures + votes == votes;
      assert Corroborated(c, r, m, et, admit) ==
             if |votes| < 2 then (r.(candidates := after, prepares := r.prepares + {m.sender}), false)
             else (r.(candidates := after, signatures := votes), true);
    }
  }

  lemma CoSignOkKeeps(c: Pinned, s: Round)
    requires Inv(c, s) && OwnIdentity(c) && s.winner.Some?
    ensures Inv(c, CoSignOk(c, s).0)
  {
    if c.me in s.proposals {
      if c.strategy == JudgeModel {
        SignKeeps(c, s);
        var t := SignWinner(c, s);
        TalliesKeep(c, t, t.prepares + {c.me}, t.signed);
      } else {
        EndorseKeeps(c, s);
      }
    }
  }

  lemma AdoptOkKeeps(c: Pinned, r: Round, m: Envelope, admit: Option<string>, k: Checks)
    requires Inv(c, r) && OwnIdentity(c) && r.winner.None? && m.sender in c.responsible && m.status == "ok"
    requires ReadWireAdmitBlocks(c, m, k) == Some(admit)
    ensures Inv(c, AdoptOkPrepare(c, r, m, admit, k).0)
  {
    var et := ReadWireEffectiveTime(c, m);
    if AdoptOkPrepare(c, r, m, admit, k) != (r, false) {
      var held := if c.strategy == JudgeModel then (r, true) else Corroborated(c, r, m, et.value, admit);
      CorroboratedFrame(c, r, m, et.value, admit);
      CorroboratedOver(c, r, m, et.value, admit, Candidate(c.hash(m.body), m.meta, et.value, admit));
      if held.1 {
        AdoptKeeps(c, held.0, m, et.value, admit);
        CoSignOkKeeps(c, Adopt(held.0, m, et.value, admit));
      }
    }
  }

  lemma PrepareKeeps(c: Pinned, r: Round, m: Envelope, k: Checks, derives: bool)
    requires Inv(c, r) && OwnIdentity(c)
    ensures Inv(c, HandlePrepare(c, r, m, k, derives))
  {
    var admit := ReadWireAdmitBlocks(c, m, k);
    if !r.finalized && m.sender in c.responsible && admit.Some? && k.bodyInCap {
      if r.winner.Some? {
        CountSignatureKeeps(c, r, m);
        FinishPrepareKeeps(c, CountSignature(c, r, m), m.sender);
      } else if m.status != "ok" {
        AdoptNonOkKeeps(c, r, m, admit.value, k, derives);
        FinishPrepareKeeps(c, AdoptNonOkPrepare(c, r, m, admit.value, k, derives).0, m.sender);
      } else {
        AdoptOkKeeps(c, r, m, admit.value, k);
        FinishPrepareKeeps(c, AdoptOkPrepare(c, r, m, admit.value, k).0, m.sender);
      }
    }
  }

  lemma StepKeepsInv(c: Pinned, r: Round, e: Event)
    requires Inv(c, r) && OwnIdentity(c)
    ensures Inv(c, Step(c, r, e))
  {
    match e
    case Propose(m, k) => ProposeKeeps(c, r, m, k);
    case Agree(hasModule, stamp) => AgreeKeeps(c, r, hasModule, stamp);
    case Verdict(verdict, stamp) => VerdictKeeps(c, r, verdict, stamp);
    case Prepare(m, k, derives) => PrepareKeeps(c, r, m, k, derives);
    case Commit(m, k) => CommitKeeps(c, r, m, k);
  }

  /** Whatever arrives, in whatever order, and whichever handler stores them, the held signatures all cover the
      round's winner and only such signatures are emitted. */
  lemma {:induction false} EveryRunKeepsInv(c: Pinned, r: Round, events: seq<Event>)
    requires Inv(c, r) && OwnIdentity(c)
    ensures Inv(c, After(c, r, events))
    decreases |events|
  {
    if events != [] {
      StepKeepsInv(c, r, events[0]);
      EveryRunKeepsInv(c, Step(c, r, events[0]), events[1..]);
    }
  }

  lemma OpenedInv(c: Pinned, own: Vote, inCap: bool, published: set<string>)
    requires OwnIdentity(c) && EraFields(c, own.et, own.admit)
    ensures Inv(c, Opened(c, own, inCap, published))
  {
  }

  lemma TwoEvents(c: Pinned, s: Round, d: Event, e: Event)
    ensures After(c, s, [d, e]) == Step(c, Step(c, s, d), e)
  {
    assert [d, e][1..] == [e] && [e][1..] == [];
    assert After(c, Step(c, Step(c, s, d), e), []) == Step(c, Step(c, s, d), e);
  }

  // ----------------------------------------------------------------- frames

  lemma QuorumFrame(c: Pinned, r: Round)
    ensures CheckPrepareQuorum(c, r).proposals == r.proposals && CheckPrepareQuorum(c, r).signed == r.signed
    ensures r.winner.Some? ==> CheckCommitQuorum(c, r).proposals == r.proposals && CheckCommitQuorum(c, r).signed == r.signed
  {
  }

  /** Corroboration touches the candidates, the votes and the signatures, nothing else. */
  lemma CorroboratedFrame(c: Pinned, r: Round, m: Envelope, et: Option<nat>, admit: Option<string>)
    requires m.sig.Some?
    ensures var h := Corroborated(c, r, m, et, admit).0;
            && h.proposals == r.proposals && h.signed == r.signed && h.winner == r.winner && h.status == r.status
            && h.et == r.et && h.admit == r.admit && h.finalized == r.finalized && h.commitSent == r.commitSent
            && h.emitted == r.emitted
  {
  }

  // ---------------------------------------------- what the signed bytes decide

  ghost predicate HashWidth(c: Pinned) { forall b :: |c.hash(b)| == 64 }

  lemma BytesAreLegacy(c: Pinned, f: Fields, et: Option<nat>, tail: string)
    requires f == Fields(c.requestId, c.providerId, f.responseHash, f.status, f.meta, None)
    requires tail == if et.Some? then "|" + Decimal(et.value) else ""
    ensures ResponseBytes(c, f.responseHash, f.status, f.meta, et) == Legacy(f) + tail
  {
    if et.Some? {
      DecimalIsCanonical(et.value);
      Regroup(Legacy(f), "|", Decimal(et.value));
    }
  }

  /** The canonical opens with the request, the provider, the body hash and the status. */
  lemma CanonicalShape(c: Pinned, hash: string, status: string, meta: string, et: Option<nat>, admit: Option<string>) returns (rest: string)
    ensures Canonical(c, hash, status, meta, et, admit) == c.header + (c.requestId + (c.providerId + (hash + (status + rest))))
  {
    var tail := if et.Some? then "|" + Decimal(et.value) else "";
    var field := if admit.Some? then "|" + admit.value else "";
    var f := Fields(c.requestId, c.providerId, hash, status, meta, None);
    rest := meta + (tail + field);
    BytesAreLegacy(c, f, et, tail);
    Regroup(Legacy(f), tail, field);
    LegacyThen(f, tail + field);
  }

  lemma OutcomesPrefixFree()
    ensures PrefixFree({"ok", NO_QUORUM, PROVIDER_ERROR})
  {
    var words := {"ok", NO_QUORUM, PROVIDER_ERROR};
    forall x, y | x in words && y in words && x <= y ensures x == y {
      assert x[0] == y[0];
    }
  }

  /** The two hubs are about the same request, hash alike and check signatures alike. */
  ghost predicate SameRequest(c: Pinned, d: Pinned) {
    d == c.(mirrorEra := d.mirrorEra, admissionEra := d.admissionEra, strategy := d.strategy, redundancy := d.redundancy,
            quorum := d.quorum, responsible := d.responsible, leader := d.leader, me := d.me, sign := d.sign)
  }

  /** Votes with the same bytes are for the same body hash and, when their outcomes are known, the same outcome. */
  lemma CanonicalDetermines(c: Pinned, h: string, s: string, x: string, t: Option<nat>, a: Option<string>,
                            d: Pinned, h': string, s': string, x': string, t': Option<nat>, a': Option<string>)
    requires SameRequest(c, d) && |h| == |h'|
    requires Canonical(c, h, s, x, t, a) == Canonical(d, h', s', x', t', a')
    ensures h == h' && (Outcome(s) && Outcome(s') ==> s == s')
  {
    var rest := CanonicalShape(c, h, s, x, t, a);
    var rest' := CanonicalShape(d, h', s', x', t', a');
    SplitFixed(c.header, c.header, c.requestId + (c.providerId + (h + (s + rest))), c.requestId + (c.providerId + (h' + (s' + rest'))));
    SplitFixed(c.requestId, c.requestId, c.providerId + (h + (s + rest)), c.providerId + (h' + (s' + rest')));
    SplitFixed(c.providerId, c.providerId, h + (s + rest), h' + (s' + rest'));
    SplitFixed(h, h', s + rest, s' + rest');
    if Outcome(s) && Outcome(s') {
      OutcomesPrefixFree();
      SplitWord({"ok", NO_QUORUM, PROVIDER_ERROR}, s, s', rest, rest');
    }
  }

  // ------------------------------------------------------- candidate keys

  function TimeText(et: Option<nat>): string { if et.Some? then Decimal(et.value) else "null" }

  /** The text under which the source groups candidate PREPAREs; its status is always ok. */
  function CandidateKey(k: Candidate): string {
    (((k.hash + "|" + k.meta) + "|" + "ok") + "|" + TimeText(k.et)) + "|" + (if k.admit.Some? then k.admit.value else "")
  }

  lemma TimeTextDecides(a: Option<nat>, b: Option<nat>)
    ensures '|' !in TimeText(a)
    ensures TimeText(a) == TimeText(b) ==> a == b
  {
    if a.Some? { DecimalIsCanonical(a.value); }
    if b.Some? { DecimalIsCanonical(b.value); }
  }

  /** Free-form meta cannot shift a boundary: one key text, one canonical. */
  lemma CandidateKeyInjective(k: Candidate, l: Candidate)
    requires |k.hash| == |l.hash| && CandidateKey(k) == CandidateKey(l)
    requires (k.admit.Some? ==> AdmitText(k.admit.value)) && (l.admit.Some? ==> AdmitText(l.admit.value))
    ensures k == l
  {
    var a, b := if k.admit.Some? then k.admit.value else "", if l.admit.Some? then l.admit.value else "";
    if k.admit.Some? { AdmissionMap.DecodedHasNoBar(a); }
    if l.admit.Some? { AdmissionMap.DecodedHasNoBar(b); }
    var k1, l1 := (k.hash + "|" + k.meta) + "|" + "ok", (l.hash + "|" + l.meta) + "|" + "ok";
    SplitTail(k1 + "|" + TimeText(k.et), a, l1 + "|" + TimeText(l.et), b);
    TimeTextDecides(k.et, l.et);
    TimeTextDecides(l.et, k.et);
    SplitTail(k1, TimeText(k.et), l1, TimeText(l.et));
    SplitTail(k.hash + "|" + k.meta, "ok", l.hash + "|" + l.meta, "ok");
    Regroup(k.hash, "|", k.meta);
    Regroup(l.hash, "|", l.meta);
    SplitFixed(k.hash, l.hash, "|" + k.meta, "|" + l.meta);
    StripPrefix("|", k.meta, l.meta);
  }
}
