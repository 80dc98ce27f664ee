/** One hub's attestation round: the per-request state its handlers share, and what each handler does to it
    (src/attestation/consensus.js and the parts under src/attestation/consensus/). Hashing and signature checking
    are parameters. */
module AttestationRound {
  import AdmissionMap
  import opened Facts
  import opened JsValues
  import opened Ordering
  import opened ResponseCanonical

  type Body = seq<Byte>

  datatype Strategy = ByteEquality | JudgeModel | Unpinned

  /** What a round is pinned to for its whole life. `header` is the EQUIV prefix of the request, or empty. */
  datatype Pinned = Pinned(
    requestId: string, providerId: string, header: string, mirrorEra: bool, admissionEra: bool, strategy: Strategy,
    redundancy: nat, quorum: nat, responsible: seq<string>, leader: Option<string>, me: string,
    hash: Body -> string, verify: (string, string, string) -> bool, sign: string -> string)

  datatype Proposal = Proposal(body: Body, meta: string, sig: string, status: string, et: Option<nat>, admit: Option<string>)

  datatype Winner = Winner(body: Body, meta: string)

  /** The fields one signature covers. */
  datatype Vote = Vote(body: Body, status: string, meta: string, et: Option<nat>, admit: Option<string>)

  /** What two PREPAREs must share to corroborate each other: the identity of the canonical, not of the body. */
  datatype Candidate = Candidate(hash: string, meta: string, et: Option<nat>, admit: Option<string>)

  datatype Signer = Signer(pubkey: string, sig: string)

  datatype Finalized = Finalized(winner: Winner, status: string, signers: seq<Signer>, et: Option<nat>, admit: Option<string>)

  /** `published` holds the non-ok statuses already published for this request, `signed` the votes this hub has
      put its signature to since the round opened, `emitted` what was handed to the publisher. */
  datatype Round = Round(
    proposals: map<string, Proposal>, signatures: map<string, string>, prepares: set<string>, commits: set<string>,
    winner: Option<Winner>, status: string, et: Option<nat>, admit: Option<string>, finalized: bool, commitSent: bool,
    agreeing: bool, candidates: map<Candidate, map<string, string>>, published: set<string>, signed: set<Vote>,
    emitted: Option<Finalized>)

  /** A peer's envelope; absent and null fields are None, an absent status reads 'ok'. */
  datatype Envelope = Envelope(sender: string, body: Body, meta: string, status: string, sig: Option<string>,
                               et: Option<nat>, admit: Option<string>)

  /** What this hub's clock, tips and body cap say of an envelope when it is handled. */
  datatype Checks = Checks(inWindow: bool, admitInBound: bool, bodyInCap: bool)

  const NO_QUORUM := "no_quorum"
  const PROVIDER_ERROR := "provider_error"

  // ------------------------------------------------------------- canonicals

  /** The text of an admission map. */
  predicate AdmitText(s: string) { AdmissionMap.Decoded(s).Some? }

  function ResponseBytes(c: Pinned, hash: string, status: string, meta: string, et: Option<nat>): string {
    match et
    case None => BuildResponseCanonicalRaw(Fields(c.requestId, c.providerId, hash, status, meta, None)).value
    case Some(t) =>
      DecimalIsCanonical(t);
      BuildResponseCanonicalRaw(Fields(c.requestId, c.providerId, hash, status, meta, Some(Decimal(t)))).value
  }

  function Canonical(c: Pinned, hash: string, status: string, meta: string, et: Option<nat>, admit: Option<string>): string {
    c.header + (ResponseBytes(c, hash, status, meta, et) + (if admit.Some? then "|" + admit.value else ""))
  }

  function VoteCanonical(c: Pinned, v: Vote): string {
    Canonical(c, c.hash(v.body), v.status, v.meta, v.et, v.admit)
  }

  /** The bytes every signature of a settled round must cover. */
  function WinnerVote(r: Round): Vote
    requires r.winner.Some?
  {
    Vote(r.winner.value.body, r.status, r.winner.value.meta, r.et, r.admit)
  }

  // ------------------------------------------------------------ round fields

  /** Proposals a round waits for, and signatures it finalizes on. */
  function Need(c: Pinned): int { Min(c.redundancy, |c.responsible|) }

  function Needed(c: Pinned): int { Max(c.quorum, c.redundancy) }

  function LeaderProposal(c: Pinned, proposals: map<string, Proposal>): Option<Proposal> {
    if c.leader.Some? && c.leader.value in proposals then Some(proposals[c.leader.value]) else None
  }

  /** The elected leader can still propose, and has not. */
  predicate LeaderStillDue(c: Pinned, proposals: map<string, Proposal>) {
    c.leader.Some? && c.leader.value !in proposals && c.leader.value in c.responsible && |proposals| < |c.responsible|
  }

  predicate AwaitsLeaderStamp(c: Pinned, r: Round) {
    c.mirrorEra && c.strategy != JudgeModel && LeaderStillDue(c, r.proposals)
  }

  predicate AwaitsLeaderAdmitMap(c: Pinned, r: Round) { r.admit.Some? && LeaderStillDue(c, r.proposals) }

  predicate HoldsOk(proposals: map<string, Proposal>) { exists pk :: pk in proposals && proposals[pk].status == "ok" }

  function SettledTime(c: Pinned, proposals: map<string, Proposal>, et: Option<nat>, status: string, stamp: nat): Option<nat> {
    var lp := LeaderProposal(c, proposals);
    if !c.mirrorEra then et
    else if c.strategy == JudgeModel && status != PROVIDER_ERROR then Some(stamp)
    else if lp.Some? && lp.value.et.Some? then lp.value.et
    else et
  }

  function SettledAdmit(c: Pinned, proposals: map<string, Proposal>, admit: Option<string>): Option<string> {
    var lp := LeaderProposal(c, proposals);
    if admit.Some? && lp.Some? && lp.value.admit.Some? then lp.value.admit else admit
  }

  /** The own proposal is an ok one for exactly the winner. */
  predicate OwnOkMatches(c: Pinned, proposals: map<string, Proposal>, hash: string, meta: string) {
    c.me in proposals && proposals[c.me].status == "ok" && c.hash(proposals[c.me].body) == hash && proposals[c.me].meta == meta
  }

  // --------------------------------------------------------------- signing

  /** Sign the winner canonical with this hub's identity and count the signature. */
  function SignWinner(c: Pinned, r: Round): Round
    requires r.winner.Some?
  {
    r.(signatures := r.signatures[c.me := c.sign(VoteCanonical(c, WinnerVote(r)))], signed := r.signed + {WinnerVote(r)})
  }

  /** Count the own PROPOSE signature when it covers the winner, else a stamp one; echo the PREPARE. */
  function Endorse(c: Pinned, r: Round): Round
    requires r.winner.Some? && c.me in r.proposals
  {
    var own := r.proposals[c.me].sig;
    var s := if c.verify(VoteCanonical(c, WinnerVote(r)), own, c.me) then r.(signatures := r.signatures[c.me := own])
             else SignWinner(c, r);
    s.(prepares := s.prepares + {c.me})
  }

  // --------------------------------------------------------------- quorums

  ghost predicate IsLeast(k: string, keys: set<string>) { k in keys && forall x :: x in keys ==> StrLe(k, x) }

  lemma {:induction false} LeastExists(keys: set<string>)
    requires keys != {}
    ensures exists k :: IsLeast(k, keys)
  {
    StrLeIsTotalOrder();
    var k :| k in keys;
    if keys == {k} {
      assert IsLeast(k, keys);
    } else {
      LeastExists(keys - {k});
      var m :| IsLeast(m, keys - {k});
      if StrLe(m, k) { assert IsLeast(m, keys); } else { assert IsLeast(k, keys); }
    }
  }

  ghost function Least(keys: set<string>): (k: string)
    requires keys != {}
    ensures IsLeast(k, keys)
  {
    LeastExists(keys);
    var k :| IsLeast(k, keys);
    k
  }

  /** The n smallest public keys with their signatures, ascending. */
  ghost function Selected(signatures: map<string, string>, n: nat): seq<Signer>
    decreases n
  {
    if n == 0 || signatures.Keys == {} then []
    else var k := Least(signatures.Keys); [Signer(k, signatures[k])] + Selected(signatures - {k}, n - 1)
  }

  ghost function CheckCommitQuorum(c: Pinned, r: Round): Round
    requires r.winner.Some?
  {
    if r.finalized || |r.signatures| < Needed(c) then r
    else r.(finalized := true,
            published := if r.status == "ok" then r.published else r.published + {r.status},
            emitted := Some(Finalized(r.winner.value, r.status, Selected(r.signatures, Needed(c)), r.et, r.admit)))
  }

  ghost function CheckPrepareQuorum(c: Pinned, r: Round): Round {
    if r.finalized || r.winner.None? || r.commitSent || |r.prepares| < Needed(c) then r
    else CheckCommitQuorum(c, r.(commitSent := true, commits := r.commits + {c.me}))
  }

  ghost function BroadcastAgreedPrepare(c: Pinned, r: Round): Round {
    CheckPrepareQuorum(c, r.(prepares := r.prepares + {c.me}))
  }

  // ------------------------------------------------------ winner establishment

  /** Proposals whose own signature already covers the winner canonical; the ok sweep also compares the bodies. */
  ghost function Transferred(c: Pinned, r: Round, compare: bool): map<string, string>
    requires r.winner.Some?
  {
    Covering(c, r.proposals, r.winner.value, VoteCanonical(c, WinnerVote(r)), compare)
  }

  function Covering(c: Pinned, proposals: map<string, Proposal>, w: Winner, bytes: string, compare: bool): map<string, string> {
    Swept(proposals, Cover(c, w, bytes, compare))
  }

  function Swept(proposals: map<string, Proposal>, covers: (string, Proposal) -> bool): map<string, string> {
    map pk | pk in proposals && covers(pk, proposals[pk]) :: proposals[pk].sig
  }

  function Cover(c: Pinned, w: Winner, bytes: string, compare: bool): (string, Proposal) -> bool {
    (pk, p) => Covers(c, pk, p, w, bytes, compare)
  }

  predicate Covers(c: Pinned, pk: string, p: Proposal, w: Winner, bytes: string, compare: bool) {
    (compare ==> c.hash(p.body) == c.hash(w.body) && p.meta == w.meta) && c.verify(bytes, p.sig, pk)
  }

  predicate JudgeReSignEligible(c: Pinned, r: Round) {
    c.strategy == JudgeModel && c.me in r.proposals && r.proposals[c.me].body != [] && r.proposals[c.me].status == "ok"
  }

  predicate MirrorOrAdmitReSignEligible(c: Pinned, r: Round)
    requires r.winner.Some?
  {
    (c.mirrorEra || r.admit.Some?) && c.strategy != JudgeModel && c.me !in r.signatures &&
    OwnOkMatches(c, r.proposals, c.hash(r.winner.value.body), r.winner.value.meta)
  }

  /** The round once its winner, status, time and admission map are settled, before any signature is counted. */
  ghost function Settle(c: Pinned, r: Round, w: Winner, status: string, stamp: nat): Round {
    r.(winner := Some(w), status := status, et := SettledTime(c, r.proposals, r.et, status, stamp),
       admit := SettledAdmit(c, r.proposals, r.admit))
  }

  ghost function CollectOk(c: Pinned, s: Round): Round
    requires s.winner.Some?
  {
    var t := s.(signatures := s.signatures + Transferred(c, s, true));
    var u := if JudgeReSignEligible(c, t) then SignWinner(c, t) else t;
    if MirrorOrAdmitReSignEligible(c, u) then SignWinner(c, u) else u
  }

  ghost function EstablishOkWinner(c: Pinned, r: Round, w: Winner, stamp: nat): Round {
    BroadcastAgreedPrepare(c, CollectOk(c, Settle(c, r, w, "ok", stamp)))
  }

  ghost function CollectNonOk(c: Pinned, s: Round): Round
    requires s.winner.Some?
  {
    var t := s.(signatures := s.signatures + Transferred(c, s, false));
    if c.me in t.proposals && c.me !in t.signatures then SignWinner(c, t) else t
  }

  ghost function EstablishNonOkWinner(c: Pinned, r: Round, status: string, stamp: nat): Round {
    if r.finalized || r.winner.Some? || status in r.published then r
    else BroadcastAgreedPrepare(c, CollectNonOk(c, Settle(c, r, Winner([], ""), status, stamp)))
  }

  predicate MayAgree(c: Pinned, r: Round) {
    !r.finalized && r.winner.None? && !r.agreeing && |r.proposals| >= Need(c) && !AwaitsLeaderStamp(c, r) && !AwaitsLeaderAdmitMap(c, r)
  }

  predicate AwaitsJudgeLeader(c: Pinned) { c.strategy == JudgeModel && c.leader.Some? && c.leader.value != c.me }

  /** Up to the await on the provider's agree(). */
  ghost function StartAgree(c: Pinned, r: Round, hasModule: bool, stamp: nat): Round {
    if !MayAgree(c, r) then r
    else if !HoldsOk(r.proposals) then EstablishNonOkWinner(c, r, PROVIDER_ERROR, stamp)
    else if !hasModule || AwaitsJudgeLeader(c) then r
    else r.(agreeing := true)
  }

  /** After the await, whatever verdict came back and whatever happened meanwhile. */
  ghost function FinishAgree(c: Pinned, r: Round, verdict: Option<Winner>, stamp: nat): Round {
    if !r.agreeing then r
    else
      var s := r.(agreeing := false);
      if s.finalized || s.winner.Some? then s
      else match verdict
           case None => EstablishNonOkWinner(c, s, NO_QUORUM, stamp)
           case Some(w) => EstablishOkWinner(c, s, w, stamp)
  }

  // ------------------------------------------------------------------ wire

  /** None rejects the envelope; Some(None) is the legacy era's absence of a time. */
  function ReadWireEffectiveTime(c: Pinned, m: Envelope): Option<Option<nat>> {
    if !c.mirrorEra then Some(None) else if m.et.None? then None else Some(m.et)
  }

  function ReadWireAdmitBlocks(c: Pinned, m: Envelope, k: Checks): Option<Option<string>> {
    if c.admissionEra != m.admit.Some? then None
    else if !c.admissionEra then Some(None)
    else if !AdmitText(m.admit.value) || !k.admitInBound then None
    else Some(m.admit)
  }

  predicate InWindow(et: Option<nat>, k: Checks) { et.Some? ==> k.inWindow }

  // --------------------------------------------------------------- PROPOSE

  ghost function HandlePropose(c: Pinned, r: Round, m: Envelope, k: Checks): Round {
    var et, admit := ReadWireEffectiveTime(c, m), ReadWireAdmitBlocks(c, m, k);
    if r.finalized || m.sender !in c.responsible || et.None? || admit.None? then r
    else
      var sig := if m.sig.Some? then m.sig.value else "";
      if !c.verify(Canonical(c, c.hash(m.body), m.status, m.meta, et.value, admit.value), sig, m.sender) then r
      else if !InWindow(et.value, k) || !k.bodyInCap || m.sender in r.proposals then r
      else r.(proposals := r.proposals[m.sender := Proposal(m.body, m.meta, sig, m.status, et.value, admit.value)])
  }

  // --------------------------------------------------------------- PREPARE

  predicate PrepareAdmitMapAllowed(c: Pinned, r: Round, sender: string, wire: Option<string>) {
    r.admit.None? ||
    var lp := LeaderProposal(c, r.proposals);
    var fromLeader := c.leader == Some(sender);
    if lp.Some? then wire == (if lp.value.admit.Some? then lp.value.admit else r.admit)
    else if fromLeader then true
    else !LeaderStillDue(c, r.proposals) && wire == r.admit
  }

  /** The own derivation refuses the claimed failure; derivesWinner says whether the own agree() does not answer
      a settled 'no winner'. */
  predicate NonOkDerivationRefuses(c: Pinned, r: Round, status: string, sender: string, derivesWinner: bool) {
    || (status == NO_QUORUM && c.strategy == JudgeModel && c.leader.Some? && sender != c.leader.value)
    || (status == NO_QUORUM && c.strategy == ByteEquality && (|r.proposals| < Need(c) || derivesWinner || !HoldsOk(r.proposals)))
    || (status == PROVIDER_ERROR && (|r.proposals| < Need(c) || HoldsOk(r.proposals)))
  }

  predicate MayCoSignNonOk(c: Pinned, r: Round, status: string) {
    c.me in r.proposals && (status == NO_QUORUM || (status == PROVIDER_ERROR && r.proposals[c.me].status == PROVIDER_ERROR))
  }

  ghost function Adopt(r: Round, m: Envelope, et: Option<nat>, admit: Option<string>): Round
    requires m.sig.Some?
  {
    r.(et := et, admit := admit, signatures := r.signatures[m.sender := m.sig.value],
       winner := Some(Winner(m.body, m.meta)), status := m.status)
  }

  /** A PREPARE fit to establish a winner: signed by its sender over its own bytes, its time readable and bounded. */
  predicate SignedInWindow(c: Pinned, m: Envelope, admit: Option<string>, k: Checks) {
    var et := ReadWireEffectiveTime(c, m);
    && m.sig.Some? && et.Some?
    && c.verify(Canonical(c, c.hash(m.body), m.status, m.meta, et.value, admit), m.sig.value, m.sender)
    && InWindow(et.value, k)
  }

  /** The round after the attempt, and whether the PREPARE was accepted. */
  ghost function AdoptNonOkPrepare(c: Pinned, r: Round, m: Envelope, admit: Option<string>, k: Checks, derivesWinner: bool): (Round, bool) {
    var et := ReadWireEffectiveTime(c, m);
    if m.body != [] || m.meta != "" || (m.status != PROVIDER_ERROR && m.status != NO_QUORUM) || m.status in r.published
       || !SignedInWindow(c, m, admit, k) || !PrepareAdmitMapAllowed(c, r, m.sender, admit)
       || NonOkDerivationRefuses(c, r, m.status, m.sender, derivesWinner)
    then (r, false)
    else
      var s := Adopt(r, m, et.value, admit);
      (if MayCoSignNonOk(c, s, m.status) && c.me !in s.signatures then Endorse(c, s) else s, true)
  }

  /** A sender's re-announcement replaces its previous candidate. */
  function ForgetOthers(candidates: map<Candidate, map<string, string>>, key: Candidate, sender: string)
    : map<Candidate, map<string, string>>
  {
    map k | k in candidates && (k == key || sender !in candidates[k] || candidates[k] - {sender} != map[])
      :: if k == key then candidates[k] else candidates[k] - {sender}
  }

  /** The candidates after one more announcement. */
  function Announce(candidates: map<Candidate, map<string, string>>, key: Candidate, sender: string, sig: string)
    : (after: map<Candidate, map<string, string>>)
    ensures key in after
  {
    var kept := ForgetOthers(candidates, key, sender);
    kept[key := (if key in kept then kept[key] else map[])[sender := sig]]
  }

  /** byte_equality adopts on the own match or on a second signer of the same canonical. */
  ghost function Corroborated(c: Pinned, r: Round, m: Envelope, et: Option<nat>, admit: Option<string>): (Round, bool)
    requires m.sig.Some?
  {
    if OwnOkMatches(c, r.proposals, c.hash(m.body), m.meta) then (r, true)
    else
      var key := Candidate(c.hash(m.body), m.meta, et, admit);
      var after := Announce(r.candidates, key, m.sender, m.sig.value);
      if |after[key]| < 2 then (r.(candidates := after, prepares := r.prepares + {m.sender}), false)
      else (r.(candidates := after, signatures := r.signatures + after[key]), true)
  }

  predicate LeaderBodyMatchesProposal(c: Pinned, r: Round, m: Envelope) {
    |r.proposals| >= Need(c) &&
    exists pk :: pk in r.proposals && r.proposals[pk].status == "ok" && c.hash(r.proposals[pk].body) == c.hash(m.body) && r.proposals[pk].meta == m.meta
  }

  ghost function CoSignOk(c: Pinned, s: Round): (Round, bool)
    requires s.winner.Some?
  {
    if c.me !in s.proposals then (s, true)
    else
      var own, w := s.proposals[c.me], s.winner.value;
      if c.strategy == JudgeModel then
        if own.body == [] then (s, false) else var t := SignWinner(c, s); (t.(prepares := t.prepares + {c.me}), true)
      else if c.hash(own.body) == c.hash(w.body) && own.meta == w.meta then (Endorse(c, s), true)
      else (s, true)
  }

  ghost function AdoptOkPrepare(c: Pinned, r: Round, m: Envelope, admit: Option<string>, k: Checks): (Round, bool) {
    var et := ReadWireEffectiveTime(c, m);
    if (c.strategy == JudgeModel && c.leader.Some? && m.sender != c.leader.value)
       || !SignedInWindow(c, m, admit, k) || !PrepareAdmitMapAllowed(c, r, m.sender, admit)
       || (c.strategy == JudgeModel && !LeaderBodyMatchesProposal(c, r, m))
    then (r, false)
    else
      var held := if c.strategy == JudgeModel then (r, true) else Corroborated(c, r, m, et.value, admit);
      if !held.1 then held else CoSignOk(c, Adopt(held.0, m, et.value, admit))
  }

  ghost function CountSignature(c: Pinned, r: Round, m: Envelope): Round
    requires r.winner.Some?
  {
    if m.sig.Some? && c.verify(VoteCanonical(c, WinnerVote(r)), m.sig.value, m.sender)
    then r.(signatures := r.signatures[m.sender := m.sig.value]) else r
  }

  ghost function FinishPrepare(c: Pinned, r: Round, sender: string): Round {
    var s := CheckPrepareQuorum(c, r.(prepares := r.prepares + {sender}));
    if s.winner.Some? && s.commitSent then CheckCommitQuorum(c, s) else s
  }

  ghost function HandlePrepare(c: Pinned, r: Round, m: Envelope, k: Checks, derivesWinner: bool): Round {
    var admit := ReadWireAdmitBlocks(c, m, k);
    if r.finalized || m.sender !in c.responsible || admit.None? || !k.bodyInCap then r
    else
      var a := if r.winner.Some? then (CountSignature(c, r, m), true)
               else if m.status != "ok" then AdoptNonOkPrepare(c, r, m, admit.value, k, derivesWinner)
               else AdoptOkPrepare(c, r, m, admit.value, k);
      if a.1 then FinishPrepare(c, a.0, m.sender) else a.0
  }

  // ---------------------------------------------------------------- COMMIT

  ghost function HandleCommit(c: Pinned, r: Round, m: Envelope, k: Checks): Round {
    var admit := ReadWireAdmitBlocks(c, m, k);
    if r.finalized || r.winner.None? || m.sender !in c.responsible || admit.None? || r.admit != admit.value then r
    else
      var s := CountSignature(c, r, m);
      CheckCommitQuorum(c, s.(commits := s.commits + {m.sender}))
  }

  // ------------------------------------------------------------------- runs

  datatype Event =
    | Propose(m: Envelope, k: Checks)
    | Agree(hasModule: bool, stamp: nat)
    | Verdict(verdict: Option<Winner>, stamp: nat)
    | Prepare(m: Envelope, k: Checks, derivesWinner: bool)
    | Commit(m: Envelope, k: Checks)

  ghost function Step(c: Pinned, r: Round, e: Event): Round {
    match e
    case Propose(m, k) => HandlePropose(c, r, m, k)
    case Agree(hasModule, stamp) => StartAgree(c, r, hasModule, stamp)
    case Verdict(verdict, stamp) => FinishAgree(c, r, verdict, stamp)
    case Prepare(m, k, derives) => HandlePrepare(c, r, m, k, derives)
    case Commit(m, k) => HandleCommit(c, r, m, k)
  }

  /** The round as propose() opens it: this hub signs its own vote and, within the body cap, proposes it. */
  ghost function Opened(c: Pinned, own: Vote, inCap: bool, published: set<string>): Round {
    var sig := c.sign(VoteCanonical(c, own));
    Round(if inCap then map[c.me := Proposal(own.body, own.meta, sig, own.status, own.et, own.admit)] else map[],
          map[], {}, {}, None, "ok", own.et, own.admit, false, false, false, map[], published, {own}, None)
  }

  ghost function After(c: Pinned, r: Round, events: seq<Event>): Round
    decreases |events|
  {
    if events == [] then r else After(c, Step(c, r, events[0]), events[1..])
  }
}
