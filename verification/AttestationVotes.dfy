/** What an honest hub puts its signature to in one attempt at a request. */
module AttestationVotes {
  import opened JsValues
  import opened AttestationRound
  import opened AttestationSafety

  // ------------------------------------------------- what an honest hub signs

  /** What one attempt may bind this hub to: the vote it opens with, the votes of its earlier attempts, whose envelopes
      may come back, and the body hashes and metas its ok votes may carry. */
  datatype Past = Past(own: Vote, earlier: set<Vote>, vouches: (string, string) -> bool)

  /** Each vote this hub signed has a known outcome, an ok one is for a body it may vouch for, and so is its proposal;
      until that is in, it signed its own vote alone. */
  ghost predicate OwnVotes(c: Pinned, r: Round, p: Past) { OwnVotesOf(c, r.proposals, r.signed, p) }

  ghost predicate OwnVotesOf(c: Pinned, proposals: map<string, Proposal>, signed: set<Vote>, p: Past) {
    && (if c.me in proposals then p.vouches(c.hash(proposals[c.me].body), proposals[c.me].meta)
        else signed <= {p.own} && forall v, meta :: v == p.own || v in p.earlier ==> p.vouches(c.hash(v.body), meta))
    && (forall v :: v in signed ==>
          Outcome(v.status) && if v.status == "ok" then p.vouches(c.hash(v.body), v.meta) else v.body == [])
  }

  /** A signature that checks under this hub's key is over one of these votes. */
  ghost predicate Unforged(c: Pinned, votes: set<Vote>, bytes: string, sig: string) {
    c.verify(bytes, sig, c.me) ==> exists v :: v in votes && VoteCanonical(c, v) == bytes
  }

  /** No envelope brings this hub, while its own proposal is missing, one under its key that it never signed. */
  ghost predicate UnforgedEvent(c: Pinned, r: Round, e: Event, earlier: set<Vote>) {
    e.Propose? && e.m.sender == c.me && c.me !in r.proposals
    && ReadWireEffectiveTime(c, e.m).Some? && ReadWireAdmitBlocks(c, e.m, e.k).Some? ==>
      Unforged(c, r.signed + earlier,
               Canonical(c, c.hash(e.m.body), e.m.status, e.m.meta, ReadWireEffectiveTime(c, e.m).value, ReadWireAdmitBlocks(c, e.m, e.k).value),
               if e.m.sig.Some? then e.m.sig.value else "")
  }

  ghost predicate UnforgedRun(c: Pinned, r: Round, events: seq<Event>, earlier: set<Vote>)
    decreases |events|
  {
    events == [] || (UnforgedEvent(c, r, events[0], earlier) && UnforgedRun(c, Step(c, r, events[0]), events[1..], earlier))
  }

  lemma SignOwn(c: Pinned, r: Round, p: Past)
    requires OwnVotes(c, r, p) && r.winner.Some? && c.me in r.proposals && Outcome(r.status)
    requires if r.status == "ok" then p.vouches(c.hash(r.winner.value.body), r.winner.value.meta) else r.winner.value.body == []
    ensures OwnVotes(c, SignWinner(c, r), p)
  {
  }

  lemma EndorseOwn(c: Pinned, r: Round, p: Past)
    requires OwnVotes(c, r, p) && r.winner.Some? && c.me in r.proposals && Outcome(r.status)
    requires if r.status == "ok" then p.vouches(c.hash(r.winner.value.body), r.winner.value.meta) else r.winner.value.body == []
    ensures OwnVotes(c, Endorse(c, r), p)
  {
    SignOwn(c, r, p);
  }

  lemma EstablishNonOkOwn(c: Pinned, r: Round, status: string, stamp: nat, p: Past)
    requires OwnVotes(c, r, p) && (status == NO_QUORUM || status == PROVIDER_ERROR)
    ensures OwnVotes(c, EstablishNonOkWinner(c, r, status, stamp), p)
  {
    var s := Settle(c, r, Winner([], ""), status, stamp);
    var t := s.(signatures := s.signatures + Transferred(c, s, false));
    if c.me in t.proposals { SignOwn(c, t, p); }
    var u := CollectNonOk(c, s);
    QuorumFrame(c, u.(prepares := u.prepares + {c.me}));
  }

  lemma EstablishOkOwn(c: Pinned, r: Round, w: Winner, stamp: nat, p: Past)
    requires OwnVotes(c, r, p) && c.strategy != JudgeModel
    ensures OwnVotes(c, EstablishOkWinner(c, r, w, stamp), p)
  {
    var s := Settle(c, r, w, "ok", stamp);
    var t := s.(signatures := s.signatures + Transferred(c, s, true));
    if MirrorOrAdmitReSignEligible(c, t) { SignOwn(c, t, p); }
    var u := CollectOk(c, s);
    QuorumFrame(c, u.(prepares := u.prepares + {c.me}));
  }

  lemma AdoptNonOkOwn(c: Pinned, r: Round, m: Envelope, admit: Option<string>, k: Checks, derives: bool, p: Past)
    requires OwnVotes(c, r, p)
    ensures OwnVotes(c, AdoptNonOkPrepare(c, r, m, admit, k, derives).0, p)
  {
    if AdoptNonOkPrepare(c, r, m, admit, k, derives).1 {
      var s := Adopt(r, m, ReadWireEffectiveTime(c, m).value, admit);
      if c.me in s.proposals { EndorseOwn(c, s, p); }
    }
  }

  lemma CoSignOkOwn(c: Pinned, s: Round, p: Past)
    requires OwnVotes(c, s, p) && c.strategy != JudgeModel && s.winner.Some? && s.status == "ok"
    ensures OwnVotes(c, CoSignOk(c, s).0, p)
  {
    if c.me in s.proposals && p.vouches(c.hash(s.winner.value.body), s.winner.value.meta) { EndorseOwn(c, s, p); }
  }

  lemma AdoptOkOwn(c: Pinned, r: Round, m: Envelope, admit: Option<string>, k: Checks, p: Past)
    requires OwnVotes(c, r, p) && c.strategy != JudgeModel && m.status == "ok"
    ensures OwnVotes(c, AdoptOkPrepare(c, r, m, admit, k).0, p)
  {
    var et := ReadWireEffectiveTime(c, m);
    if m.sig.Some? && et.Some? {
      var held := Corroborated(c, r, m, et.value, admit);
      CorroboratedFrame(c, r, m, et.value, admit);
      CoSignOkOwn(c, Adopt(held.0, m, et.value, admit), p);
    }
  }

  lemma FinishPrepareOwn(c: Pinned, r: Round, sender: string, p: Past)
    requires OwnVotes(c, r, p)
    ensures OwnVotes(c, FinishPrepare(c, r, sender), p)
  {
    var s := r.(prepares := r.prepares + {sender});
    QuorumFrame(c, s);
    QuorumFrame(c, CheckPrepareQuorum(c, s));
  }

  lemma PrepareOwn(c: Pinned, r: Round, m: Envelope, k: Checks, derives: bool, p: Past)
    requires OwnVotes(c, r, p) && c.strategy != JudgeModel
    ensures OwnVotes(c, HandlePrepare(c, r, m, k, derives), p)
  {
    var admit := ReadWireAdmitBlocks(c, m, k);
    if !r.finalized && m.sender in c.responsible && admit.Some? && k.bodyInCap {
      if r.winner.Some? {
        FinishPrepareOwn(c, CountSignature(c, r, m), m.sender, p);
      } else if m.status != "ok" {
        AdoptNonOkOwn(c, r, m, admit.value, k, derives, p);
        FinishPrepareOwn(c, AdoptNonOkPrepare(c, r, m, admit.value, k, derives).0, m.sender, p);
      } else {
        AdoptOkOwn(c, r, m, admit.value, k, p);
        FinishPrepareOwn(c, AdoptOkPrepare(c, r, m, admit.value, k).0, m.sender, p);
      }
    }
  }

  lemma ProposeOwn(c: Pinned, r: Round, m: Envelope, k: Checks, p: Past)
    requires OwnVotes(c, r, p) && (c.me in r.proposals || HashWidth(c)) && UnforgedEvent(c, r, Propose(m, k), p.earlier)
    ensures OwnVotes(c, HandlePropose(c, r, m, k), p)
  {
    if HandlePropose(c, r, m, k) != r && m.sender == c.me {
      var et, admit := ReadWireEffectiveTime(c, m).value, ReadWireAdmitBlocks(c, m, k).value;
      var v :| v in r.signed + p.earlier && VoteCanonical(c, v) == Canonical(c, c.hash(m.body), m.status, m.meta, et, admit);
      CanonicalDetermines(c, c.hash(v.body), v.status, v.meta, v.et, v.admit, c, c.hash(m.body), m.status, m.meta, et, admit);
      assert p.vouches(c.hash(v.body), m.meta);
    }
  }

  lemma StepOwn(c: Pinned, r: Round, e: Event, p: Past)
    requires OwnVotes(c, r, p) && (c.me in r.proposals || HashWidth(c)) && c.strategy != JudgeModel && UnforgedEvent(c, r, e, p.earlier)
    ensures OwnVotes(c, Step(c, r, e), p)
  {
    match e
    case Propose(m, k) => ProposeOwn(c, r, m, k, p);
    case Agree(hasModule, stamp) => EstablishNonOkOwn(c, r, PROVIDER_ERROR, stamp, p);
    case Verdict(verdict, stamp) => VerdictOwn(c, r, verdict, stamp, p);
    case Prepare(m, k, derives) => PrepareOwn(c, r, m, k, derives, p);
    case Commit(m, k) => CommitOwn(c, r, m, k);
  }

  lemma VerdictOwn(c: Pinned, r: Round, verdict: Option<Winner>, stamp: nat, p: Past)
    requires OwnVotes(c, r, p) && c.strategy != JudgeModel
    ensures OwnVotes(c, FinishAgree(c, r, verdict, stamp), p)
  {
    var s := r.(agreeing := false);
    EstablishNonOkOwn(c, s, NO_QUORUM, stamp, p);
    if verdict.Some? { EstablishOkOwn(c, s, verdict.value, stamp, p); }
  }

  lemma CommitOwn(c: Pinned, r: Round, m: Envelope, k: Checks)
    ensures HandleCommit(c, r, m, k).proposals == r.proposals && HandleCommit(c, r, m, k).signed == r.signed
  {
    if r.winner.Some? {
      var s := CountSignature(c, r, m);
      QuorumFrame(c, s.(commits := s.commits + {m.sender}));
    }
  }

  lemma {:induction false} EveryRunKeepsOwnVotes(c: Pinned, r: Round, events: seq<Event>, p: Past)
    requires OwnVotes(c, r, p) && HashWidth(c) && c.strategy != JudgeModel && UnforgedRun(c, r, events, p.earlier)
    ensures OwnVotes(c, After(c, r, events), p)
    decreases |events|
  {
    if events != [] {
      StepOwn(c, r, events[0], p);
      EveryRunKeepsOwnVotes(c, Step(c, r, events[0]), events[1..], p);
    }
  }

  /** What a fetch brings: an ok body, or a failure without body and meta. */
  predicate IsFetch(own: Vote) { own.status == "ok" || (own.status == PROVIDER_ERROR && own.body == [] && own.meta == "") }

  /** A hub whose proposal is in may vouch for the body and meta it proposed alone. */
  ghost function Proposed(c: Pinned, own: Vote): Past {
    Past(own, {}, (hash, meta) => hash == c.hash(own.body) && meta == own.meta)
  }

  /** One whose body was over the cap may also be led back to a body of an earlier attempt. */
  ghost function Unproposed(c: Pinned, own: Vote, earlier: set<Vote>): Past {
    Past(own, earlier, (hash, meta) => hash == c.hash(own.body) || exists v :: v in earlier && c.hash(v.body) == hash)
  }

  /** Its proposal stands for the whole run, so nothing about forged envelopes need be asked. */
  lemma {:induction false} EveryRunKeepsProposed(c: Pinned, r: Round, events: seq<Event>, own: Vote)
    requires OwnVotes(c, r, Proposed(c, own)) && c.strategy != JudgeModel
    ensures OwnVotes(c, After(c, r, events), Proposed(c, own))
    decreases |events|
  {
    assert own.meta + "x" != own.meta && (c.me !in r.proposals ==> Proposed(c, own).vouches(c.hash(own.body), own.meta + "x"));
    if events != [] {
      StepOwn(c, r, events[0], Proposed(c, own));
      EveryRunKeepsProposed(c, Step(c, r, events[0]), events[1..], own);
    }
  }

  /** Outside judge_model a hub never signs, in any run, an ok vote over a body or meta other than those of its own fetch;
      one that could not propose its body keeps to a body it fetched in this or an earlier attempt. */
  lemma OkVoteNeedsOwnFetch(c: Pinned, own: Vote, inCap: bool, published: set<string>, earlier: set<Vote>, events: seq<Event>, v: Vote)
    requires c.strategy != JudgeModel && IsFetch(own)
    requires inCap || (HashWidth(c) && UnforgedRun(c, Opened(c, own, inCap, published), events, earlier))
    requires v in After(c, Opened(c, own, inCap, published), events).signed
    ensures Outcome(v.status) && (v.status != "ok" ==> v.body == [])
    ensures v.status == "ok" && inCap ==> c.hash(v.body) == c.hash(own.body) && v.meta == own.meta
    ensures v.status == "ok" && !inCap ==> c.hash(v.body) == c.hash(own.body) || exists u :: u in earlier && c.hash(u.body) == c.hash(v.body)
  {
    var r := Opened(c, own, inCap, published);
    if inCap {
      EveryRunKeepsProposed(c, r, events, own);
    } else {
      EveryRunKeepsOwnVotes(c, r, events, Unproposed(c, own, earlier));
    }
  }

  // ---------------------------------------------------------- failed fetches

  ghost predicate OkSigned(r: Round) { HoldsOkVote(r.signed) }

  ghost predicate HoldsOkVote(signed: set<Vote>) { exists v :: v in signed && v.status == "ok" }

  lemma OneMoreVote(signed: set<Vote>, v: Vote)
    ensures HoldsOkVote(signed + {v}) <==> HoldsOkVote(signed) || v.status == "ok"
  {
    if v.status == "ok" { assert v in signed + {v}; }
    if HoldsOkVote(signed) {
      var w :| w in signed && w.status == "ok";
      assert w in signed + {v};
    }
  }

  /** The own proposal is that of a failed fetch, and its signature covers no ok vote. */
  ghost predicate FetchFailed(c: Pinned, r: Round) { c.me in r.proposals && FailedProposal(c, r.proposals[c.me]) }

  ghost predicate FailedProposal(c: Pinned, own: Proposal) {
    && own.status == PROVIDER_ERROR && own.body == [] && own.meta == ""
    && forall v: Vote :: v.status == "ok" ==> !c.verify(VoteCanonical(c, v), own.sig, c.me)
  }

  /** The round settled on an ok winner with an empty body and meta. */
  ghost predicate SettledEmpty(c: Pinned, r: Round) {
    r.winner.Some? && r.status == "ok" && c.hash(r.winner.value.body) == c.hash([]) && r.winner.value.meta == ""
  }

  /** A PREPARE settles the round on an ok winner with an empty body and meta. */
  ghost predicate AdoptsEmpty(c: Pinned, r: Round, e: Event) {
    e.Prepare? && r.winner.None? && SettledEmpty(c, Step(c, r, e))
  }

  ghost predicate EverAdoptsEmpty(c: Pinned, r: Round, events: seq<Event>)
    decreases |events|
  {
    events != [] && (AdoptsEmpty(c, r, events[0]) || EverAdoptsEmpty(c, Step(c, r, events[0]), events[1..]))
  }

  lemma FinishFrame(c: Pinned, r: Round, sender: string)
    ensures var t := FinishPrepare(c, r, sender);
            t.proposals == r.proposals && t.signed == r.signed && t.signatures == r.signatures && t.winner == r.winner && t.status == r.status
  {
  }

  lemma EstablishUnsigned(c: Pinned, r: Round, w: Winner, stamp: nat)
    requires FetchFailed(c, r) && c.strategy != JudgeModel
    ensures EstablishOkWinner(c, r, w, stamp).proposals == r.proposals && EstablishOkWinner(c, r, w, stamp).signed == r.signed
  {
    var u := CollectOk(c, Settle(c, r, w, "ok", stamp));
    QuorumFrame(c, u.(prepares := u.prepares + {c.me}));
  }

  lemma EstablishNonOkSigned(c: Pinned, r: Round, status: string, stamp: nat)
    requires status != "ok"
    ensures var t := EstablishNonOkWinner(c, r, status, stamp); t.proposals == r.proposals && OkSigned(t) == OkSigned(r)
  {
    var s := Settle(c, r, Winner([], ""), status, stamp);
    var u := CollectNonOk(c, s);
    QuorumFrame(c, u.(prepares := u.prepares + {c.me}));
    OneMoreVote(r.signed, WinnerVote(s));
    assert u.signed == r.signed || u.signed == r.signed + {WinnerVote(s)};
  }

  lemma EndorseSigned(c: Pinned, s: Round)
    requires s.winner.Some? && c.me in s.proposals
    ensures var t := Endorse(c, s);
            && t.proposals == s.proposals && t.winner == s.winner && t.status == s.status
            && t.signed == if c.verify(VoteCanonical(c, WinnerVote(s)), s.proposals[c.me].sig, c.me) then s.signed else s.signed + {WinnerVote(s)}
  {
  }

  lemma AdoptNonOkSigned(c: Pinned, r: Round, m: Envelope, admit: Option<string>, k: Checks, derives: bool)
    requires r.winner.None? && m.status != "ok"
    ensures var a := AdoptNonOkPrepare(c, r, m, admit, k, derives);
            && a.0.proposals == r.proposals && OkSigned(a.0) == OkSigned(r)
            && (a.0.winner.Some? ==> a.0.status != "ok")
  {
    if AdoptNonOkPrepare(c, r, m, admit, k, derives).1 {
      var s := Adopt(r, m, ReadWireEffectiveTime(c, m).value, admit);
      if c.me in s.proposals { EndorseSigned(c, s); }
      OneMoreVote(r.signed, WinnerVote(s));
    }
  }

  lemma CoSignSigned(c: Pinned, s: Round)
    requires FetchFailed(c, s) && c.strategy != JudgeModel && s.winner.Some? && s.status == "ok"
    ensures var t := CoSignOk(c, s).0;
            && t.proposals == s.proposals && t.winner == s.winner && t.status == s.status && CoSignOk(c, s).1
            && (OkSigned(t) <==> OkSigned(s) || (c.hash(s.winner.value.body) == c.hash([]) && s.winner.value.meta == ""))
  {
    EndorseSigned(c, s);
    OneMoreVote(s.signed, WinnerVote(s));
  }

  lemma AdoptOkSigned(c: Pinned, r: Round, m: Envelope, admit: Option<string>, k: Checks)
    requires FetchFailed(c, r) && r.winner.None? && c.strategy != JudgeModel && m.status == "ok"
    ensures var a := AdoptOkPrepare(c, r, m, admit, k);
            && a.0.proposals == r.proposals && (a.0.winner.Some? ==> a.1)
            && (OkSigned(a.0) <==> OkSigned(r) || SettledEmpty(c, a.0))
  {
    var et := ReadWireEffectiveTime(c, m);
    if AdoptOkPrepare(c, r, m, admit, k) != (r, false) {
      var held := Corroborated(c, r, m, et.value, admit);
      CorroboratedFrame(c, r, m, et.value, admit);
      if held.1 { CoSignSigned(c, Adopt(held.0, m, et.value, admit)); }
    }
  }

  ghost function Attempt(c: Pinned, r: Round, m: Envelope, admit: Option<string>, k: Checks, derives: bool): (Round, bool) {
    if m.status != "ok" then AdoptNonOkPrepare(c, r, m, admit, k, derives) else AdoptOkPrepare(c, r, m, admit, k)
  }

  lemma AttemptSigned(c: Pinned, r: Round, m: Envelope, admit: Option<string>, k: Checks, derives: bool)
    requires FetchFailed(c, r) && r.winner.None? && c.strategy != JudgeModel
    ensures var a := Attempt(c, r, m, admit, k, derives).0;
            a.proposals == r.proposals && (OkSigned(a) <==> OkSigned(r) || SettledEmpty(c, a))
  {
    if m.status != "ok" { AdoptNonOkSigned(c, r, m, admit, k, derives); } else { AdoptOkSigned(c, r, m, admit, k); }
  }

  lemma PrepareSigned(c: Pinned, r: Round, m: Envelope, k: Checks, derives: bool)
    requires FetchFailed(c, r) && c.strategy != JudgeModel
    ensures var t := HandlePrepare(c, r, m, k, derives);
            && t.proposals == r.proposals
            && (OkSigned(t) <==> OkSigned(r) || (r.winner.None? && SettledEmpty(c, t)))
  {
    var admit := ReadWireAdmitBlocks(c, m, k);
    if !r.finalized && m.sender in c.responsible && admit.Some? && k.bodyInCap {
      if r.winner.Some? {
        FinishFrame(c, CountSignature(c, r, m), m.sender);
      } else {
        AttemptSigned(c, r, m, admit.value, k, derives);
        FinishFrame(c, Attempt(c, r, m, admit.value, k, derives).0, m.sender);
      }
    }
  }

  lemma VerdictSigned(c: Pinned, r: Round, verdict: Option<Winner>, stamp: nat)
    requires FetchFailed(c, r) && c.strategy != JudgeModel
    ensures var t := FinishAgree(c, r, verdict, stamp); t.proposals == r.proposals && OkSigned(t) == OkSigned(r)
  {
    var s := r.(agreeing := false);
    EstablishNonOkSigned(c, s, NO_QUORUM, stamp);
    if verdict.Some? { EstablishUnsigned(c, s, verdict.value, stamp); }
  }

  lemma StepSigned(c: Pinned, r: Round, e: Event)
    requires FetchFailed(c, r) && c.strategy != JudgeModel
    ensures FetchFailed(c, Step(c, r, e)) && (OkSigned(Step(c, r, e)) <==> OkSigned(r) || AdoptsEmpty(c, r, e))
  {
    match e
    case Propose(m, k) =>
    case Agree(hasModule, stamp) => EstablishNonOkSigned(c, r, PROVIDER_ERROR, stamp);
    case Verdict(verdict, stamp) => VerdictSigned(c, r, verdict, stamp);
    case Prepare(m, k, derives) => PrepareSigned(c, r, m, k, derives);
    case Commit(m, k) => CommitOwn(c, r, m, k);
  }

  lemma {:induction false} EveryRunSigned(c: Pinned, r: Round, events: seq<Event>)
    requires FetchFailed(c, r) && c.strategy != JudgeModel
    ensures OkSigned(After(c, r, events)) <==> OkSigned(r) || EverAdoptsEmpty(c, r, events)
    decreases |events|
  {
    if events != [] {
      StepSigned(c, r, events[0]);
      EveryRunSigned(c, Step(c, r, events[0]), events[1..]);
    }
  }

  /** A hub whose fetch failed puts its signature to an ok vote exactly in the runs in which others' PREPAREs settle its
      round on an empty ok body; its own agree() never leads there. */
  lemma FailedFetchSignsExactly(c: Pinned, own: Vote, published: set<string>, events: seq<Event>)
    requires c.strategy != JudgeModel && IsFetch(own) && own.status == PROVIDER_ERROR
    requires forall v: Vote :: v.status == "ok" ==> !c.verify(VoteCanonical(c, v), c.sign(VoteCanonical(c, own)), c.me)
    ensures OkSigned(After(c, Opened(c, own, true, published), events)) <==>
            EverAdoptsEmpty(c, Opened(c, own, true, published), events)
  {
    EveryRunSigned(c, Opened(c, own, true, published), events);
  }

  lemma FirstIsHeld(c: Pinned, s: Round, p: Envelope, key: Candidate)
    requires c.me in s.proposals && s.proposals[c.me].status != "ok" && s.candidates == map[] && p.sig.Some?
    requires key == Candidate(c.hash(p.body), p.meta, None, None)
    ensures Corroborated(c, s, p, None, None) ==
            (s.(candidates := map[key := map[p.sender := p.sig.value]], prepares := s.prepares + {p.sender}), false)
  {
    assert ForgetOthers(map[], key, p.sender) == map[];
    assert Announce(map[], key, p.sender, p.sig.value) == map[key := map[p.sender := p.sig.value]];
  }

  lemma SecondCorroborates(c: Pinned, s: Round, p: string, sig: string, q: Envelope, key: Candidate)
    requires c.me in s.proposals && s.proposals[c.me].status != "ok" && q.sig.Some? && p != q.sender
    requires key == Candidate(c.hash(q.body), q.meta, None, None) && s.candidates == map[key := map[p := sig]]
    ensures Corroborated(c, s, q, None, None).1
  {
    var votes := Announce(s.candidates, key, q.sender, q.sig.value)[key];
    assert votes == map[p := sig][q.sender := q.sig.value];
    assert votes.Keys == {p, q.sender};
    assert |votes.Keys| == |votes|;
  }

  /** A legacy-era byte_equality round that has just heard nothing, in a hub whose fetch failed. */
  ghost predicate FailedAndIdle(c: Pinned, s: Round) {
    && c.strategy == ByteEquality && !c.mirrorEra && !c.admissionEra
    && c.me in s.proposals && s.proposals[c.me].status == PROVIDER_ERROR && s.proposals[c.me].body == [] && s.proposals[c.me].meta == ""
    && s.winner.None? && !s.finalized && s.admit.None? && c.me !in s.signatures
  }

  /** A legacy-era PREPARE of an empty ok body, signed by its sender. */
  ghost predicate AnnouncesEmpty(c: Pinned, m: Envelope) {
    && m == Envelope(m.sender, [], "", "ok", m.sig, None, None) && m.sender in c.responsible && m.sender != c.me && m.sig.Some?
    && c.verify(Canonical(c, c.hash([]), "ok", "", None, None), m.sig.value, m.sender)
  }

  lemma EmptyIsAdopted(c: Pinned, s: Round, m: Envelope, k: Checks, held: (Round, bool))
    requires FailedAndIdle(c, s) && AnnouncesEmpty(c, m) && k == Checks(true, true, true)
    requires held == Corroborated(c, s, m, None, None)
    ensures HandlePrepare(c, s, m, k, false) ==
            if held.1 then FinishPrepare(c, CoSignOk(c, Adopt(held.0, m, None, None)).0, m.sender) else held.0
  {
    assert AdoptOkPrepare(c, s, m, None, k) == if held.1 then CoSignOk(c, Adopt(held.0, m, None, None)) else held;
    assert held.1 ==> CoSignOk(c, Adopt(held.0, m, None, None)).1;
  }

  lemma SecondIsSigned(c: Pinned, t: Round, p: string, sig: string, q: Envelope, k: Checks, key: Candidate)
    requires FailedAndIdle(c, t) && AnnouncesEmpty(c, q) && k == Checks(true, true, true) && p != q.sender && p != c.me
    requires key == Candidate(c.hash([]), "", None, None) && t.candidates == map[key := map[p := sig]]
    ensures var r := HandlePrepare(c, t, q, k, false);
            r.winner == Some(Winner([], "")) && r.status == "ok" && c.me in r.signatures
  {
    var held := Corroborated(c, t, q, None, None);
    SecondCorroborates(c, t, p, sig, q, key);
    EmptyIsAdopted(c, t, q, k, held);
    CorroboratedFrame(c, t, q, None, None);
    var v := Adopt(held.0, q, None, None);
    SignsEmpty(c, v);
    FinishFrame(c, CoSignOk(c, v).0, q.sender);
  }

  lemma SignsEmpty(c: Pinned, v: Round)
    requires c.strategy == ByteEquality && v.winner == Some(Winner([], "")) && v.status == "ok"
    requires c.me in v.proposals && v.proposals[c.me].body == [] && v.proposals[c.me].meta == ""
    ensures var w := CoSignOk(c, v).0; c.me in w.signatures && w.winner == v.winner && w.status == v.status
  {
  }

  /** So the ok vote of a failed fetch does occur: two members announcing an empty ok body make a hub whose fetch failed
      sign it. */
  lemma FailedFetchVouches(c: Pinned, published: set<string>, p: Envelope, q: Envelope, k: Checks, s: Round)
    requires c.strategy == ByteEquality && !c.mirrorEra && !c.admissionEra && k == Checks(true, true, true)
    requires AnnouncesEmpty(c, p) && AnnouncesEmpty(c, q) && p.sender != q.sender
    requires s == Opened(c, Vote([], PROVIDER_ERROR, "", None, None), true, published)
    ensures var r := After(c, s, [Prepare(p, k, false), Prepare(q, k, false)]);
            r.winner == Some(Winner([], "")) && r.status == "ok" && c.me in r.signatures
  {
    var key := Candidate(c.hash([]), "", None, None);
    var t := s.(candidates := map[key := map[p.sender := p.sig.value]], prepares := s.prepares + {p.sender});
    assert HandlePrepare(c, s, p, k, false) == t by {
      FirstIsHeld(c, s, p, key);
      EmptyIsAdopted(c, s, p, k, (t, false));
    }
    SecondIsSigned(c, t, p.sender, p.sig.value, q, k, key);
    TwoEvents(c, s, Prepare(p, k, false), Prepare(q, k, false));
  }
}
