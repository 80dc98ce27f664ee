/** Runs of one hub's round as events: when a round finalizes without a prepare quorum, and the run in which a group of
    members finalizes one body. */
module AttestationRuns {
  import opened JsValues
  import opened Facts
  import opened AttestationRound
  import opened AttestationSafety

  // ---------------------------------------------------------------- quorums

  /** The majority-floored Byzantine quorum (src/lib/bft_quorum.js). */
  function BftQuorum(n: nat): (q: nat)
    requires n >= 2
    ensures q <= n
  {
    assert 3 * ((n - 1) / 3) <= n - 1;
    Max(2 * ((n - 1) / 3) + 1, (n + 2) / 2)
  }

  /** The quorum a round opens with, measured before the liveness ladder widens the set. */
  function RoundQuorum(responsible: nat, redundancy: nat): (q: nat)
    ensures q <= redundancy
  {
    var base := Min(responsible, Max(1, redundancy));
    if base <= 1 then 0 else BftQuorum(base)
  }

  /** The finalization count is the least that is both a quorum and the redundancy; for a round as it is opened that is
      the redundancy alone, however far the set is widened. */
  lemma RedundancyBinds(c: Pinned)
    ensures Needed(c) >= c.quorum && Needed(c) >= c.redundancy && (Needed(c) == c.quorum || Needed(c) == c.redundancy)
    ensures c.quorum == RoundQuorum(|c.responsible|, c.redundancy) ==> Needed(c) == c.redundancy
  {
  }

  // ------------------------------------------------------- the prepare quorum

  /** The COMMIT of this hub goes out on a prepare quorum only. */
  ghost predicate Gated(c: Pinned, r: Round) { r.commitSent ==> |r.prepares| >= Needed(c) }

  /** A COMMIT arrives, signed or not, while the needed signatures are held or complete with its own, and before this hub
      has seen a prepare quorum. */
  ghost predicate CommitAlone(c: Pinned, r: Round, e: Event) {
    && e.Commit? && !r.finalized && !r.commitSent && r.winner.Some?
    && e.m.sender in c.responsible && ReadWireAdmitBlocks(c, e.m, e.k) == Some(r.admit)
    && |CountSignature(c, r, e.m).signatures| >= Needed(c)
  }

  ghost predicate EverCommitAlone(c: Pinned, r: Round, events: seq<Event>)
    decreases |events|
  {
    events != [] && (CommitAlone(c, r, events[0]) || EverCommitAlone(c, Step(c, r, events[0]), events[1..]))
  }

  /** Finalized although this hub never reached the point of sending its COMMIT. */
  predicate Ungated(r: Round) { r.finalized && !r.commitSent }

  lemma QuorumGates(c: Pinned, r: Round)
    requires Gated(c, r)
    ensures Gated(c, CheckPrepareQuorum(c, r)) && Ungated(CheckPrepareQuorum(c, r)) == Ungated(r)
  {
  }

  lemma PrepareGates(c: Pinned, r: Round, sender: string)
    requires Gated(c, r)
    ensures Gated(c, FinishPrepare(c, r, sender)) && (!r.finalized ==> !Ungated(FinishPrepare(c, r, sender)))
  {
    SubsetSize(r.prepares, r.prepares + {sender});
    QuorumGates(c, r.(prepares := r.prepares + {sender}));
  }

  lemma BroadcastGates(c: Pinned, r: Round)
    requires Gated(c, r)
    ensures Gated(c, BroadcastAgreedPrepare(c, r)) && Ungated(BroadcastAgreedPrepare(c, r)) == Ungated(r)
  {
    SubsetSize(r.prepares, r.prepares + {c.me});
    QuorumGates(c, r.(prepares := r.prepares + {c.me}));
  }

  lemma EstablishNonOkGates(c: Pinned, r: Round, status: string, stamp: nat)
    requires Gated(c, r)
    ensures Gated(c, EstablishNonOkWinner(c, r, status, stamp)) && Ungated(EstablishNonOkWinner(c, r, status, stamp)) == Ungated(r)
  {
    BroadcastGates(c, CollectNonOk(c, Settle(c, r, Winner([], ""), status, stamp)));
  }

  lemma VerdictGates(c: Pinned, r: Round, verdict: Option<Winner>, stamp: nat)
    requires Gated(c, r)
    ensures Gated(c, FinishAgree(c, r, verdict, stamp)) && Ungated(FinishAgree(c, r, verdict, stamp)) == Ungated(r)
  {
    var s := r.(agreeing := false);
    EstablishNonOkGates(c, s, NO_QUORUM, stamp);
    if verdict.Some? { BroadcastGates(c, CollectOk(c, Settle(c, s, verdict.value, "ok", stamp))); }
  }

  /** No vote is taken back, and nothing is committed or finalized. */
  predicate Grown(r: Round, s: Round) { r.prepares <= s.prepares && s.finalized == r.finalized && s.commitSent == r.commitSent }

  lemma GrownGates(c: Pinned, r: Round, s: Round)
    requires Gated(c, r) && Grown(r, s)
    ensures Gated(c, s) && Ungated(s) == Ungated(r)
  {
    SubsetSize(r.prepares, s.prepares);
  }

  lemma CoSignGrows(c: Pinned, s: Round)
    requires s.winner.Some?
    ensures c.me in s.proposals ==> Grown(s, Endorse(c, s))
    ensures Grown(s, CoSignOk(c, s).0)
  {
  }

  lemma AdoptNonOkGrows(c: Pinned, r: Round, m: Envelope, admit: Option<string>, k: Checks, derives: bool)
    ensures Grown(r, AdoptNonOkPrepare(c, r, m, admit, k, derives).0)
  {
    if AdoptNonOkPrepare(c, r, m, admit, k, derives).1 { CoSignGrows(c, Adopt(r, m, ReadWireEffectiveTime(c, m).value, admit)); }
  }

  lemma CorroboratedGrows(c: Pinned, r: Round, m: Envelope, et: Option<nat>, admit: Option<string>)
    requires m.sig.Some?
    ensures Grown(r, Corroborated(c, r, m, et, admit).0)
  {
  }

  lemma AdoptOkGrows(c: Pinned, r: Round, m: Envelope, admit: Option<string>, k: Checks)
    ensures Grown(r, AdoptOkPrepare(c, r, m, admit, k).0)
  {
    var et := ReadWireEffectiveTime(c, m);
    if AdoptOkPrepare(c, r, m, admit, k) != (r, false) {
      var held := if c.strategy == JudgeModel then (r, true) else Corroborated(c, r, m, et.value, admit);
      CorroboratedGrows(c, r, m, et.value, admit);
      if held.1 { CoSignGrows(c, Adopt(held.0, m, et.value, admit)); }
    }
  }

  lemma PrepareStepGates(c: Pinned, r: Round, m: Envelope, k: Checks, derives: bool)
    requires Gated(c, r)
    ensures Gated(c, HandlePrepare(c, r, m, k, derives)) && Ungated(HandlePrepare(c, r, m, k, derives)) == Ungated(r)
  {
    var admit := ReadWireAdmitBlocks(c, m, k);
    if !r.finalized && m.sender in c.responsible && admit.Some? && k.bodyInCap {
      var a := if r.winner.Some? then (CountSignature(c, r, m), true)
               else if m.status != "ok" then AdoptNonOkPrepare(c, r, m, admit.value, k, derives)
               else AdoptOkPrepare(c, r, m, admit.value, k);
      AdoptNonOkGrows(c, r, m, admit.value, k, derives);
      AdoptOkGrows(c, r, m, admit.value, k);
      GrownGates(c, r, a.0);
      PrepareGates(c, a.0, m.sender);
    }
  }

  lemma CommitStepGates(c: Pinned, r: Round, m: Envelope, k: Checks)
    requires Gated(c, r)
    ensures Gated(c, HandleCommit(c, r, m, k))
    ensures Ungated(HandleCommit(c, r, m, k)) <==> Ungated(r) || CommitAlone(c, r, Commit(m, k))
  {
  }

  lemma StepGates(c: Pinned, r: Round, e: Event)
    requires Gated(c, r)
    ensures Gated(c, Step(c, r, e))
    ensures Ungated(Step(c, r, e)) <==> Ungated(r) || CommitAlone(c, r, e)
  {
    match e
    case Propose(m, k) =>
    case Agree(hasModule, stamp) => EstablishNonOkGates(c, r, PROVIDER_ERROR, stamp);
    case Verdict(verdict, stamp) => VerdictGates(c, r, verdict, stamp);
    case Prepare(m, k, derives) => PrepareStepGates(c, r, m, k, derives);
    case Commit(m, k) => CommitStepGates(c, r, m, k);
  }

  lemma {:induction false} EveryRunGates(c: Pinned, r: Round, events: seq<Event>)
    requires Gated(c, r)
    ensures Gated(c, After(c, r, events))
    ensures Ungated(After(c, r, events)) <==> Ungated(r) || EverCommitAlone(c, r, events)
    decreases |events|
  {
    if events != [] {
      StepGates(c, r, events[0]);
      EveryRunGates(c, Step(c, r, events[0]), events[1..]);
    }
  }

  /** The prepare quorum, named as the required gate, gates this hub's COMMIT, but finalization only up to one case: a
      round finalizes without it exactly in the runs where some member's COMMIT, even an unsigned one, comes in first. */
  lemma PrepareGateExactly(c: Pinned, own: Vote, inCap: bool, published: set<string>, events: seq<Event>)
    ensures var r := Opened(c, own, inCap, published);
            var t := After(c, r, events);
            && (t.commitSent ==> |t.prepares| >= Needed(c))
            && (t.finalized && !t.commitSent <==> EverCommitAlone(c, r, events))
  {
    EveryRunGates(c, Opened(c, own, inCap, published), events);
  }

  // ------------------------------------------------- one group, one body

  const ALL_PASS := Checks(true, true, true)

  /** A byte_equality round in the legacy era, as it is opened. */
  predicate PlainRound(c: Pinned) {
    && c.strategy == ByteEquality && !c.mirrorEra && !c.admissionEra
    && c.quorum == RoundQuorum(|c.responsible|, c.redundancy) && c.redundancy > 0
  }

  function OkVote(body: Body): Vote { Vote(body, "ok", "", None, None) }

  function KeyOf(keysign: (string, string) -> string, pk: string): string -> string { bytes => keysign(pk, bytes) }

  function OkSig(c: Pinned, keysign: (string, string) -> string, pk: string, body: Body): string {
    keysign(pk, VoteCanonical(c, OkVote(body)))
  }

  function OkProposal(c: Pinned, keysign: (string, string) -> string, pk: string, body: Body): Proposal {
    Proposal(body, "", OkSig(c, keysign, pk, body), "ok", None, None)
  }

  function ProposesOk(c: Pinned, keysign: (string, string) -> string, pk: string, body: Body): Event {
    Propose(Envelope(pk, body, "", "ok", Some(OkSig(c, keysign, pk, body)), None, None), ALL_PASS)
  }

  ghost predicate KeysVerify(c: Pinned, keysign: (string, string) -> string) {
    forall pk, bytes :: c.verify(bytes, keysign(pk, bytes), pk)
  }

  /** A round that holds exactly the signed proposals of `keys`, all for one body, and nothing else yet. */
  ghost predicate Collected(c: Pinned, keysign: (string, string) -> string, body: Body, r: Round, keys: set<string>) {
    && r.proposals.Keys == keys && (forall pk :: pk in keys ==> r.proposals[pk] == OkProposal(c, keysign, pk, body))
    && r.winner.None? && !r.finalized && !r.agreeing && !r.commitSent && r.signatures == map[]
    && r.et.None? && r.admit.None? && r.emitted.None? && r.prepares == {} && r.signed == {OkVote(body)}
  }

  lemma ProposalCollected(c: Pinned, keysign: (string, string) -> string, body: Body, r: Round, keys: set<string>, pk: string)
    requires PlainRound(c) && KeysVerify(c, keysign) && Collected(c, keysign, body, r, keys) && pk in c.responsible
    ensures Collected(c, keysign, body, Step(c, r, ProposesOk(c, keysign, pk, body)), keys + {pk})
  {
    if pk in keys { assert keys + {pk} == keys; }
  }

  function ProposeAll(c: Pinned, keysign: (string, string) -> string, body: Body, list: seq<string>): seq<Event> {
    if list == [] then [] else [ProposesOk(c, keysign, list[0], body)] + ProposeAll(c, keysign, body, list[1..])
  }

  lemma {:induction false} ProposersAreListed(c: Pinned, keysign: (string, string) -> string, body: Body, list: seq<string>)
    ensures forall e :: e in ProposeAll(c, keysign, body, list) ==> e.Propose? && e.m.sender in list
  {
    if list != [] { ProposersAreListed(c, keysign, body, list[1..]); }
  }

  lemma FirstEvent(c: Pinned, r: Round, e: Event, rest: seq<Event>, more: seq<Event>)
    ensures After(c, r, ([e] + rest) + more) == After(c, Step(c, r, e), rest + more)
  {
    assert (([e] + rest) + more)[1..] == rest + more;
  }

  lemma HeadAndTail(keys: set<string>, list: seq<string>)
    requires list != []
    ensures keys + {list[0]} + (set pk | pk in list[1..]) == keys + (set pk | pk in list)
  {
    assert list == [list[0]] + list[1..];
  }

  lemma {:induction false} AllCollected(c: Pinned, keysign: (string, string) -> string, body: Body, r: Round, keys: set<string>,
                                        list: seq<string>, rest: seq<Event>) returns (t: Round)
    requires PlainRound(c) && KeysVerify(c, keysign) && Collected(c, keysign, body, r, keys)
    requires forall pk :: pk in list ==> pk in c.responsible
    ensures After(c, r, ProposeAll(c, keysign, body, list) + rest) == After(c, t, rest)
    ensures Collected(c, keysign, body, t, keys + set pk | pk in list)
    decreases |list|
  {
    if list == [] {
      t := r;
      assert ProposeAll(c, keysign, body, list) + rest == rest;
      assert keys + (set pk | pk in list) == keys;
    } else {
      var e := ProposesOk(c, keysign, list[0], body);
      ProposalCollected(c, keysign, body, r, keys, list[0]);
      FirstEvent(c, r, e, ProposeAll(c, keysign, body, list[1..]), rest);
      t := AllCollected(c, keysign, body, Step(c, r, e), keys + {list[0]}, list[1..], rest);
      HeadAndTail(keys, list);
    }
  }

  /** Settled on body with one verifying signature of each of `keys`; if finalized already, on those. */
  ghost predicate SignedBy(c: Pinned, body: Body, r: Round, keys: set<string>) {
    && r.winner == Some(Winner(body, "")) && r.status == "ok" && r.signatures.Keys == keys && r.signed == {OkVote(body)}
    && r.et.None? && r.admit.None? && r.finalized == r.emitted.Some?
    && (r.finalized ==> r.emitted == Some(Finalized(Winner(body, ""), "ok", Selected(r.signatures, Needed(c)), None, None)))
  }

  lemma SettledOnBody(c: Pinned, keysign: (string, string) -> string, body: Body, r: Round, keys: set<string>)
    requires PlainRound(c) && KeysVerify(c, keysign) && Collected(c, keysign, body, r, keys)
    ensures var s := CollectOk(c, Settle(c, r, Winner(body, ""), "ok", 0));
            SignedBy(c, body, s, keys) && !s.finalized && !s.commitSent && s.prepares == {}
  {
    var s := Settle(c, r, Winner(body, ""), "ok", 0);
    assert WinnerVote(s) == OkVote(body);
    assert Transferred(c, s, true).Keys == keys;
    assert s.signatures + Transferred(c, s, true) == Transferred(c, s, true);
  }

  lemma QuorumKeepsSigned(c: Pinned, body: Body, r: Round, keys: set<string>)
    requires SignedBy(c, body, r, keys)
    ensures SignedBy(c, body, CheckPrepareQuorum(c, r), keys) && SignedBy(c, body, CheckCommitQuorum(c, r), keys)
    ensures |keys| >= Needed(c) ==> CheckCommitQuorum(c, r).finalized
  {
    assert |r.signatures.Keys| == |r.signatures|;
  }

  lemma AgreeStarts(c: Pinned, keysign: (string, string) -> string, body: Body, r: Round, keys: set<string>)
    requires PlainRound(c) && Collected(c, keysign, body, r, keys) && c.me in keys && |keys| == c.redundancy
    ensures Step(c, r, Agree(true, 0)) == r.(agreeing := true)
  {
    assert |r.proposals.Keys| == |r.proposals|;
    assert r.proposals[c.me].status == "ok";
  }

  /** Finalized on these votes, or still short of a prepare quorum with exactly them. */
  predicate Voting(c: Pinned, r: Round, voters: set<string>) {
    if |voters| < Needed(c) then !r.finalized && !r.commitSent && r.prepares == voters else r.finalized
  }

  lemma BroadcastCounts(c: Pinned, body: Body, s: Round, keys: set<string>)
    requires SignedBy(c, body, s, keys) && |keys| == Needed(c) && !s.finalized && !s.commitSent && s.prepares == {}
    ensures SignedBy(c, body, BroadcastAgreedPrepare(c, s), keys) && Voting(c, BroadcastAgreedPrepare(c, s), {c.me})
  {
    assert s.prepares + {c.me} == {c.me};
    QuorumKeepsSigned(c, body, s.(prepares := {c.me}), keys);
  }

  lemma VerdictSettles(c: Pinned, keysign: (string, string) -> string, body: Body, r: Round, keys: set<string>)
    requires PlainRound(c) && KeysVerify(c, keysign) && Collected(c, keysign, body, r, keys) && |keys| == c.redundancy
    ensures var t := Step(c, r.(agreeing := true), Verdict(Some(Winner(body, "")), 0));
            SignedBy(c, body, t, keys) && Voting(c, t, {c.me})
  {
    SettledOnBody(c, keysign, body, r, keys);
    RedundancyBinds(c);
    BroadcastCounts(c, body, CollectOk(c, Settle(c, r, Winner(body, ""), "ok", 0)), keys);
    assert r.(agreeing := false) == r;
  }

  /** The PREPARE of another member that holds the same winner. */
  function PreparesOk(c: Pinned, keysign: (string, string) -> string, pk: string, body: Body): Event {
    Prepare(Envelope(pk, body, "", "ok", Some(OkSig(c, keysign, pk, body)), None, None), ALL_PASS, false)
  }

  lemma SignatureCounts(c: Pinned, keysign: (string, string) -> string, body: Body, r: Round, keys: set<string>, pk: string)
    requires PlainRound(c) && KeysVerify(c, keysign) && SignedBy(c, body, r, keys) && !r.finalized && pk in keys
    ensures var s := CountSignature(c, r, PreparesOk(c, keysign, pk, body).m);
            SignedBy(c, body, s, keys) && s == r.(signatures := s.signatures)
  {
    assert WinnerVote(r) == OkVote(body);
  }

  lemma VoteCounts(c: Pinned, body: Body, s: Round, keys: set<string>, voters: set<string>, pk: string)
    requires SignedBy(c, body, s, keys) && |keys| == Needed(c) && !s.finalized && Voting(c, s, voters)
    ensures var t := FinishPrepare(c, s, pk); SignedBy(c, body, t, keys) && Voting(c, t, voters + {pk})
  {
    QuorumKeepsSigned(c, body, s.(prepares := voters + {pk}), keys);
  }

  lemma PrepareCounts(c: Pinned, keysign: (string, string) -> string, body: Body, r: Round, keys: set<string>, voters: set<string>, pk: string)
    requires PlainRound(c) && KeysVerify(c, keysign) && SignedBy(c, body, r, keys) && |keys| == c.redundancy
    requires Voting(c, r, voters) && pk in keys && pk in c.responsible
    ensures var t := Step(c, r, PreparesOk(c, keysign, pk, body)); SignedBy(c, body, t, keys) && Voting(c, t, voters + {pk})
  {
    RedundancyBinds(c);
    if r.finalized {
      SubsetSize(voters, voters + {pk});
    } else {
      SignatureCounts(c, keysign, body, r, keys, pk);
      VoteCounts(c, body, CountSignature(c, r, PreparesOk(c, keysign, pk, body).m), keys, voters, pk);
    }
  }

  function PrepareAll(c: Pinned, keysign: (string, string) -> string, body: Body, list: seq<string>): seq<Event> {
    if list == [] then [] else [PreparesOk(c, keysign, list[0], body)] + PrepareAll(c, keysign, body, list[1..])
  }

  lemma {:induction false} AllPrepare(c: Pinned, keysign: (string, string) -> string, body: Body, r: Round, keys: set<string>,
                                      voters: set<string>, list: seq<string>)
    requires PlainRound(c) && KeysVerify(c, keysign) && SignedBy(c, body, r, keys) && |keys| == c.redundancy
    requires Voting(c, r, voters) && forall pk :: pk in list ==> pk in keys && pk in c.responsible
    ensures var t := After(c, r, PrepareAll(c, keysign, body, list)); SignedBy(c, body, t, keys) && Voting(c, t, voters + set pk | pk in list)
    decreases |list|
  {
    if list == [] {
      assert voters + (set pk | pk in list) == voters;
    } else {
      var e := PreparesOk(c, keysign, list[0], body);
      PrepareCounts(c, keysign, body, r, keys, voters, list[0]);
      AllPrepare(c, keysign, body, Step(c, r, e), keys, voters + {list[0]}, list[1..]);
      HeadAndTail(voters, list);
      assert PrepareAll(c, keysign, body, list)[1..] == PrepareAll(c, keysign, body, list[1..]);
    }
  }

  /** agree() and the verdict it gives. */
  function Agreeing(body: Body): seq<Event> { [Agree(true, 0), Verdict(Some(Winner(body, "")), 0)] }

  /** A member hears the others of its group, settles on their body, and counts their PREPAREs. */
  function GroupRun(c: Pinned, keysign: (string, string) -> string, body: Body, others: seq<string>): seq<Event> {
    ProposeAll(c, keysign, body, others) + (Agreeing(body) + PrepareAll(c, keysign, body, others))
  }

  ghost function Members(c: Pinned): set<string> { set pk | pk in c.responsible }

  ghost predicate IsGroup(c: Pinned, group: set<string>, others: seq<string>) {
    && group <= Members(c) && |group| == c.redundancy && c.me in group
    && forall pk :: pk in others <==> pk in group && pk != c.me
  }

  lemma GroupListed(c: Pinned, group: set<string>, others: seq<string>)
    requires IsGroup(c, group, others)
    ensures {c.me} + (set pk | pk in others) == group
    ensures forall pk :: pk in others ==> pk in group && pk in c.responsible
  {
    forall pk | pk in others ensures pk in c.responsible { assert pk in Members(c); }
  }

  lemma TwoEventsThen(c: Pinned, r: Round, d: Event, e: Event, rest: seq<Event>)
    ensures After(c, r, [d, e] + rest) == After(c, Step(c, Step(c, r, d), e), rest)
  {
    assert ([d, e] + rest)[1..] == [e] + rest && ([e] + rest)[1..] == rest;
  }

  /** The round of a group member right after its verdict, and what remains of its run. */
  lemma GroupSettles(c: Pinned, keysign: (string, string) -> string, body: Body, published: set<string>, group: set<string>,
                     others: seq<string>, rest: seq<Event>) returns (s: Round)
    requires PlainRound(c) && KeysVerify(c, keysign) && IsGroup(c, group, others) && c.sign == KeyOf(keysign, c.me)
    ensures SignedBy(c, body, s, group) && Voting(c, s, {c.me})
    ensures After(c, Opened(c, OkVote(body), true, published), ProposeAll(c, keysign, body, others) + (Agreeing(body) + rest)) == After(c, s, rest)
  {
    GroupListed(c, group, others);
    var start := Opened(c, OkVote(body), true, published);
    assert Collected(c, keysign, body, start, {c.me});
    var r := AllCollected(c, keysign, body, start, {c.me}, others, Agreeing(body) + rest);
    AgreeStarts(c, keysign, body, r, group);
    VerdictSettles(c, keysign, body, r, group);
    s := Step(c, r.(agreeing := true), Verdict(Some(Winner(body, "")), 0));
    TwoEventsThen(c, r, Agree(true, 0), Verdict(Some(Winner(body, "")), 0), rest);
  }

  lemma GroupFinalizes(c: Pinned, keysign: (string, string) -> string, body: Body, published: set<string>, group: set<string>, others: seq<string>)
    requires PlainRound(c) && KeysVerify(c, keysign) && IsGroup(c, group, others) && c.sign == KeyOf(keysign, c.me)
    ensures var t := After(c, Opened(c, OkVote(body), true, published), GroupRun(c, keysign, body, others));
            SignedBy(c, body, t, group) && t.finalized
  {
    var s := GroupSettles(c, keysign, body, published, group, others, PrepareAll(c, keysign, body, others));
    GroupListed(c, group, others);
    AllPrepare(c, keysign, body, s, group, {c.me}, others);
    RedundancyBinds(c);
  }

  /** The excepted case occurs: with every signature collected while the proposals came in, one bare COMMIT of another
      member finalizes the round on this hub's own PREPARE alone. */
  lemma BareCommitFinalizes(c: Pinned, keysign: (string, string) -> string, body: Body, published: set<string>, group: set<string>,
                            others: seq<string>, other: string)
    requires PlainRound(c) && KeysVerify(c, keysign) && IsGroup(c, group, others) && c.sign == KeyOf(keysign, c.me)
    requires c.redundancy > 1 && other in c.responsible
    ensures var bare := Commit(Envelope(other, [], "", "ok", None, None, None), ALL_PASS);
            var t := After(c, Opened(c, OkVote(body), true, published), ProposeAll(c, keysign, body, others) + (Agreeing(body) + [bare]));
            t.finalized && !t.commitSent && t.prepares == {c.me} && |t.prepares| < Needed(c)
  {
    var bare := Commit(Envelope(other, [], "", "ok", None, None, None), ALL_PASS);
    var s := GroupSettles(c, keysign, body, published, group, others, [bare]);
    RedundancyBinds(c);
    assert [bare][1..] == [];
    assert After(c, s, [bare]) == Step(c, s, bare);
    QuorumKeepsSigned(c, body, s.(commits := s.commits + {other}), group);
  }
}
