/** The `pending` object of one request and the handlers that mutate it, proved against the round's specification. */
module AttestationConsensus {
  import opened JsValues
  import opened Ordering
  import opened AttestationRound
  import opened AttestationSafety

  /** The finalized response's signers: the `needed` smallest public keys, one at a time. */
  method SelectFinalizedSigners(signatures: map<string, string>, needed: nat) returns (signers: seq<Signer>)
    ensures signers == Selected(signatures, needed)
  {
    signers := [];
    var rest := signatures;
    var n := needed;
    while n > 0 && rest.Keys != {}
      invariant signers + Selected(rest, n) == Selected(signatures, needed)
      decreases n
    {
      var k := LeastKey(rest.Keys);
      signers, rest, n := signers + [Signer(k, rest[k])], rest - {k}, n - 1;
    }
  }

  method LeastKey(keys: set<string>) returns (least: string)
    requires keys != {}
    ensures least == Least(keys)
  {
    StrLeIsTotalOrder();
    least :| least in keys;
    var todo := keys - {least};
    while todo != {}
      invariant todo <= keys && least in keys && forall x :: x in keys && x !in todo ==> StrLe(least, x)
      decreases |todo|
    {
      var k :| k in todo;
      if !StrLe(least, k) { least := k; }
      todo := todo - {k};
    }
    assert IsLeast(least, keys) && IsLeast(Least(keys), keys);
  }

  /** The sweep over the proposals: count the signatures that already cover the winner. */
  method Sweep(proposals: map<string, Proposal>, signatures: map<string, string>, covers: (string, Proposal) -> bool)
    returns (swept: map<string, string>)
    ensures swept == signatures + Swept(proposals, covers)
  {
    swept := signatures;
    var todo := proposals.Keys;
    while todo != {}
      invariant todo <= proposals.Keys
      invariant swept == signatures + (Swept(proposals, covers) - todo)
      decreases todo
    {
      var pubkey :| pubkey in todo;
      SweptOne(signatures, proposals, covers, todo, pubkey);
      if covers(pubkey, proposals[pubkey]) { swept := swept[pubkey := proposals[pubkey].sig]; }
      todo := todo - {pubkey};
    }
  }

  lemma SweptOne(signatures: map<string, string>, proposals: map<string, Proposal>, covers: (string, Proposal) -> bool,
                 todo: set<string>, pk: string)
    requires pk in todo && todo <= proposals.Keys
    ensures signatures + (Swept(proposals, covers) - (todo - {pk})) ==
            if covers(pk, proposals[pk]) then (signatures + (Swept(proposals, covers) - todo))[pk := proposals[pk].sig]
            else signatures + (Swept(proposals, covers) - todo)
  {
  }

  /** Drop the sender's candidates other than key, and those left empty by that. */
  method Forget(candidates: map<Candidate, map<string, string>>, key: Candidate, sender: string)
    returns (kept: map<Candidate, map<string, string>>)
    ensures kept == ForgetOthers(candidates, key, sender)
  {
    kept := candidates;
    ghost var goal := ForgetOthers(candidates, key, sender);
    var todo := candidates.Keys - {key};
    while todo != {}
      invariant todo <= candidates.Keys - {key}
      invariant forall k :: k in kept <==> k in todo || k in goal
      invariant forall k :: k in kept ==> kept[k] == if k in todo then candidates[k] else goal[k]
      decreases |todo|
    {
      var k :| k in todo;
      var m := kept[k];
      assert sender !in m ==> m - {sender} == m;
      if sender in m {
        kept := if m - {sender} == map[] then kept - {k} else kept[k := m - {sender}];
      }
      todo := todo - {k};
    }
  }

  class Pending {
    const c: Pinned
    var proposals: map<string, Proposal>
    var signatures: map<string, string>
    var prepares: set<string>
    var commits: set<string>
    var winner: Option<Winner>
    var status: string
    var et: Option<nat>
    var admit: Option<string>
    var finalized: bool
    var commitSent: bool
    var agreeing: bool
    var candidates: map<Candidate, map<string, string>>
    var published: set<string>
    ghost var signed: set<Vote>
    var emitted: Option<Finalized>

    ghost function State(): Round
      reads this
    {
      Round(proposals, signatures, prepares, commits, winner, status, et, admit, finalized, commitSent, agreeing,
            candidates, published, signed, emitted)
    }

    constructor Open(c: Pinned, own: Vote, inCap: bool, published: set<string>)
      ensures this.c == c && State() == Opened(c, own, inCap, published)
      ensures OwnIdentity(c) && EraFields(c, own.et, own.admit) ==> Inv(c, State())
    {
      this.c := c;
      var sig := c.sign(VoteCanonical(c, own));
      proposals := if inCap then map[c.me := Proposal(own.body, own.meta, sig, own.status, own.et, own.admit)] else map[];
      signatures, prepares, commits, candidates := map[], {}, {}, map[];
      winner, status, et, admit := None, "ok", own.et, own.admit;
      finalized, commitSent, agreeing, emitted := false, false, false, None;
      this.published, signed := published, {own};
    }

    /** The bytes of the settled winner. */
    function WinnerBytes(): string
      reads this
      requires winner.Some?
      ensures WinnerBytes() == VoteCanonical(c, WinnerVote(State()))
    {
      VoteCanonical(c, Vote(winner.value.body, status, winner.value.meta, et, admit))
    }

    method SignOwn()
      requires winner.Some?
      modifies this`signatures, this`signed
      ensures State() == SignWinner(c, old(State()))
    {
      var sig := c.sign(WinnerBytes());
      signed := signed + {WinnerVote(State())};
      signatures := signatures[c.me := sig];
    }

    /** The co-signing tail both adoption paths share: transfer the own PROPOSE signature or re-sign, then echo. */
    method EndorseOwn()
      requires winner.Some? && c.me in proposals
      modifies this`signatures, this`signed, this`prepares
      ensures State() == Endorse(c, old(State()))
    {
      if c.verify(WinnerBytes(), proposals[c.me].sig, c.me) {
        signatures := signatures[c.me := proposals[c.me].sig];
      } else {
        SignOwn();
      }
      prepares := prepares + {c.me};
    }

    method CommitQuorum()
      requires winner.Some?
      modifies this`finalized, this`published, this`emitted
      ensures State() == CheckCommitQuorum(c, old(State()))
    {
      if finalized || |signatures| < Needed(c) { return; }
      finalized := true;
      if status != "ok" { published := published + {status}; }
      var signers := SelectFinalizedSigners(signatures, Needed(c));
      emitted := Some(Finalized(winner.value, status, signers, et, admit));
    }

    method PrepareQuorum()
      modifies this
      ensures State() == CheckPrepareQuorum(c, old(State()))
    {
      if finalized || winner.None? || commitSent { return; }
      if |prepares| >= Needed(c) {
        commitSent := true;
        commits := commits + {c.me};
        CommitQuorum();
      }
    }

    method CollectWinnerSignatures(compare: bool)
      requires winner.Some?
      modifies this`signatures
      ensures signatures == old(signatures) + Covering(c, proposals, winner.value, old(WinnerBytes()), compare)
    {
      var w, bytes := winner.value, WinnerBytes();
      signatures := Sweep(proposals, signatures, Cover(c, w, bytes, compare));
    }

    method SettleWinner(w: Winner, newStatus: string, stamp: nat)
      modifies this`winner, this`status, this`et, this`admit
      ensures State() == Settle(c, old(State()), w, newStatus, stamp)
    {
      winner, status := Some(w), newStatus;
      var leaderProposal := LeaderProposal(c, proposals);
      if c.mirrorEra {
        if c.strategy == JudgeModel && newStatus != PROVIDER_ERROR {
          et := Some(stamp);
        } else if leaderProposal.Some? && leaderProposal.value.et.Some? {
          et := leaderProposal.value.et;
        }
      }
      if admit.Some? && leaderProposal.Some? && leaderProposal.value.admit.Some? {
        admit := leaderProposal.value.admit;
      }
    }

    method EstablishOk(w: Winner, stamp: nat)
      modifies this
      ensures State() == EstablishOkWinner(c, old(State()), w, stamp)
    {
      SettleWinner(w, "ok", stamp);
      CollectOkSignatures();
      prepares := prepares + {c.me};
      PrepareQuorum();
    }

    method CollectOkSignatures()
      requires winner.Some?
      modifies this`signatures, this`signed
      ensures State() == CollectOk(c, old(State()))
    {
      CollectWinnerSignatures(true);
      if c.strategy == JudgeModel && c.me in proposals && proposals[c.me].body != [] && proposals[c.me].status == "ok" {
        SignOwn();
      }
      if (c.mirrorEra || admit.Some?) && c.strategy != JudgeModel && c.me !in signatures &&
         OwnOkMatches(c, proposals, c.hash(winner.value.body), winner.value.meta) {
        SignOwn();
      }
    }

    method EstablishNonOk(newStatus: string, stamp: nat)
      modifies this
      ensures State() == EstablishNonOkWinner(c, old(State()), newStatus, stamp)
    {
      if finalized || winner.Some? || newStatus in published { return; }
      SettleWinner(Winner([], ""), newStatus, stamp);
      CollectWinnerSignatures(false);
      if c.me in proposals && c.me !in signatures { SignOwn(); }
      prepares := prepares + {c.me};
      PrepareQuorum();
    }

    /** maybeAdvanceFromProposals up to its await. */
    method BeginAgree(hasModule: bool, stamp: nat)
      modifies this
      ensures State() == StartAgree(c, old(State()), hasModule, stamp)
      ensures OwnIdentity(c) && Inv(c, old(State())) ==> Inv(c, State())
    {
      if OwnIdentity(c) && Inv(c, State()) { AgreeKeeps(c, State(), hasModule, stamp); }
      if finalized || winner.Some? || agreeing || |proposals| < Need(c) { return; }
      var leaderDue := LeaderStillDue(c, proposals);
      if c.mirrorEra && c.strategy != JudgeModel && leaderDue { return; }
      if admit.Some? && leaderDue { return; }
      if !HoldsOk(proposals) {
        EstablishNonOk(PROVIDER_ERROR, stamp);
        return;
      }
      if !hasModule || AwaitsJudgeLeader(c) { return; }
      agreeing := true;
    }

    /** maybeAdvanceFromProposals after its await: whatever happened meanwhile wins. */
    method EndAgree(verdict: Option<Winner>, stamp: nat)
      modifies this
      ensures State() == FinishAgree(c, old(State()), verdict, stamp)
      ensures OwnIdentity(c) && Inv(c, old(State())) ==> Inv(c, State())
    {
      if OwnIdentity(c) && Inv(c, State()) { VerdictKeeps(c, State(), verdict, stamp); }
      if !agreeing { return; }
      agreeing := false;
      if finalized || winner.Some? { return; }
      match verdict
      case None => EstablishNonOk(NO_QUORUM, stamp);
      case Some(w) => EstablishOk(w, stamp);
    }

    method Propose(m: Envelope, k: Checks)
      modifies this`proposals
      ensures State() == HandlePropose(c, old(State()), m, k)
      ensures Inv(c, old(State())) ==> Inv(c, State())
    {
      if Inv(c, State()) { ProposeKeeps(c, State(), m, k); }
      if finalized || m.sender !in c.responsible { return; }
      var wireEt, wireAdmit := ReadWireEffectiveTime(c, m), ReadWireAdmitBlocks(c, m, k);
      if wireEt.None? || wireAdmit.None? { return; }
      var sig := if m.sig.Some? then m.sig.value else "";
      if !c.verify(Canonical(c, c.hash(m.body), m.status, m.meta, wireEt.value, wireAdmit.value), sig, m.sender) { return; }
      if wireEt.value.Some? && !k.inWindow { return; }
      if !k.bodyInCap { return; }
      if m.sender !in proposals {
        proposals := proposals[m.sender := Proposal(m.body, m.meta, sig, m.status, wireEt.value, wireAdmit.value)];
      }
    }

    method AdoptWinner(m: Envelope, wireEt: Option<nat>, wireAdmit: Option<string>)
      requires m.sig.Some?
      modifies this`et, this`admit, this`signatures, this`winner, this`status
      ensures State() == Adopt(old(State()), m, wireEt, wireAdmit)
    {
      et, admit := wireEt, wireAdmit;
      signatures := signatures[m.sender := m.sig.value];
      winner, status := Some(Winner(m.body, m.meta)), m.status;
    }

    method AdoptNonOk(m: Envelope, wireAdmit: Option<string>, k: Checks, derivesWinner: bool) returns (accepted: bool)
      modifies this
      ensures (State(), accepted) == AdoptNonOkPrepare(c, old(State()), m, wireAdmit, k, derivesWinner)
    {
      if m.body != [] || m.meta != "" { return false; }
      if m.status != PROVIDER_ERROR && m.status != NO_QUORUM { return false; }
      if m.status in published || !SignedInWindow(c, m, wireAdmit, k) { return false; }
      var allowed := AdmitMapAllowed(m.sender, wireAdmit);
      if !allowed { return false; }
      var refused := DerivationRefuses(m.status, m.sender, derivesWinner);
      if refused { return false; }
      var wireEt := ReadWireEffectiveTime(c, m);
      AdoptWinner(m, wireEt.value, wireAdmit);
      if c.me in proposals && (m.status == NO_QUORUM || proposals[c.me].status == PROVIDER_ERROR) && c.me !in signatures {
        EndorseOwn();
      }
      return true;
    }

    method DerivationRefuses(claimed: string, sender: string, derivesWinner: bool) returns (refused: bool)
      ensures refused == NonOkDerivationRefuses(c, State(), claimed, sender, derivesWinner)
    {
      var holdsOk := HoldsOk(proposals);
      if claimed == NO_QUORUM && c.strategy == JudgeModel && c.leader.Some? && sender != c.leader.value { return true; }
      if claimed == NO_QUORUM && c.strategy == ByteEquality && (|proposals| < Need(c) || derivesWinner || !holdsOk) { return true; }
      return claimed == PROVIDER_ERROR && (|proposals| < Need(c) || holdsOk);
    }

    method AdmitMapAllowed(sender: string, wire: Option<string>) returns (allowed: bool)
      ensures allowed == PrepareAdmitMapAllowed(c, State(), sender, wire)
    {
      if admit.None? { return true; }
      var expected := admit;
      var hasLeader := c.leader.Some? && c.leader.value in proposals;
      if hasLeader {
        if proposals[c.leader.value].admit.Some? { expected := proposals[c.leader.value].admit; }
      } else if c.leader == Some(sender) {
        expected := wire;
      } else if c.leader.Some? && c.leader.value in c.responsible && |proposals| < |c.responsible| {
        return false;
      }
      return expected == wire;
    }

    /** One live candidate per sender: drop the sender's other announcements, then record this one. */
    method AnnounceCandidate(key: Candidate, sender: string, sig: string)
      modifies this`candidates
      ensures candidates == Announce(old(candidates), key, sender, sig)
    {
      candidates := Forget(candidates, key, sender);
      var votes := if key in candidates then candidates[key] else map[];
      candidates := candidates[key := votes[sender := sig]];
    }

    method Corroborate(m: Envelope, wireEt: Option<nat>, wireAdmit: Option<string>) returns (accepted: bool)
      requires m.sig.Some?
      modifies this`candidates, this`prepares, this`signatures
      ensures (State(), accepted) == Corroborated(c, old(State()), m, wireEt, wireAdmit)
    {
      var hash := c.hash(m.body);
      if OwnOkMatches(c, proposals, hash, m.meta) { return true; }
      var key := Candidate(hash, m.meta, wireEt, wireAdmit);
      AnnounceCandidate(key, m.sender, m.sig.value);
      ghost var announced := State();
      assert announced == old(State()).(candidates := candidates);
      if |candidates[key]| < 2 {
        prepares := prepares + {m.sender};
        return false;
      }
      signatures := signatures + candidates[key];
      return true;
    }

    method AdoptOk(m: Envelope, wireAdmit: Option<string>, k: Checks) returns (accepted: bool)
      modifies this
      ensures (State(), accepted) == AdoptOkPrepare(c, old(State()), m, wireAdmit, k)
    {
      if c.strategy == JudgeModel && c.leader.Some? && m.sender != c.leader.value { return false; }
      if !SignedInWindow(c, m, wireAdmit, k) { return false; }
      var wireEt := ReadWireEffectiveTime(c, m);
      var allowed := AdmitMapAllowed(m.sender, wireAdmit);
      if !allowed { return false; }
      if c.strategy == JudgeModel {
        if |proposals| < Need(c) { return false; }
        if !(exists pk :: pk in proposals && proposals[pk].status == "ok" && c.hash(proposals[pk].body) == c.hash(m.body) && proposals[pk].meta == m.meta) {
          return false;
        }
      } else {
        var corroborated := Corroborate(m, wireEt.value, wireAdmit);
        if !corroborated { return false; }
      }
      AdoptWinner(m, wireEt.value, wireAdmit);
      accepted := CoSign();
    }

    method CoSign() returns (accepted: bool)
      requires winner.Some?
      modifies this
      ensures (State(), accepted) == CoSignOk(c, old(State()))
    {
      if c.me !in proposals { return true; }
      var own := proposals[c.me];
      if c.strategy == JudgeModel {
        if own.body == [] { return false; }
        SignOwn();
        prepares := prepares + {c.me};
      } else if c.hash(own.body) == c.hash(winner.value.body) && own.meta == winner.value.meta {
        EndorseOwn();
      }
      return true;
    }

    method CountVerified(m: Envelope)
      requires winner.Some?
      modifies this`signatures
      ensures State() == CountSignature(c, old(State()), m)
    {
      if m.sig.Some? && c.verify(WinnerBytes(), m.sig.value, m.sender) {
        signatures := signatures[m.sender := m.sig.value];
      }
    }

    method Prepare(m: Envelope, k: Checks, derivesWinner: bool)
      modifies this
      ensures State() == HandlePrepare(c, old(State()), m, k, derivesWinner)
      ensures OwnIdentity(c) && Inv(c, old(State())) ==> Inv(c, State())
    {
      if OwnIdentity(c) && Inv(c, State()) { PrepareKeeps(c, State(), m, k, derivesWinner); }
      if finalized || m.sender !in c.responsible { return; }
      var wireAdmit := ReadWireAdmitBlocks(c, m, k);
      if wireAdmit.None? || !k.bodyInCap { return; }
      var accepted := true;
      if winner.None? && m.status != "ok" {
        accepted := AdoptNonOk(m, wireAdmit.value, k, derivesWinner);
      } else if winner.None? {
        accepted := AdoptOk(m, wireAdmit.value, k);
      } else {
        CountVerified(m);
      }
      if accepted { FinishVote(m.sender); }
    }

    method FinishVote(sender: string)
      modifies this
      ensures State() == FinishPrepare(c, old(State()), sender)
    {
      prepares := prepares + {sender};
      PrepareQuorum();
      if winner.Some? && commitSent { CommitQuorum(); }
    }

    method Commit(m: Envelope, k: Checks)
      modifies this
      ensures State() == HandleCommit(c, old(State()), m, k)
      ensures Inv(c, old(State())) ==> Inv(c, State())
    {
      if Inv(c, State()) { CommitKeeps(c, State(), m, k); }
      if finalized || winner.None? || m.sender !in c.responsible { return; }
      var wireAdmit := ReadWireAdmitBlocks(c, m, k);
      if wireAdmit.None? || admit != wireAdmit.value { return; }
      CountVerified(m);
      ghost var counted := State();
      commits := commits + {m.sender};
      assert State() == counted.(commits := counted.commits + {m.sender});
      CommitQuorum();
    }
  }
}
