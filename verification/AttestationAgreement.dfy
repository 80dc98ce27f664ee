/** When the finalizations of one request agree, and exactly how many signers that takes. */
module AttestationAgreement {
  import opened JsValues
  import opened Facts
  import opened AttestationRound
  import opened AttestationSafety
  import opened AttestationVotes
  import opened AttestationRuns

  /** One hub's attempt at one request. A round that times out is forgotten, and the next poll opens another with a fetch
      of its own: that is another attempt. */
  datatype Hub = Hub(c: Pinned, own: Vote, inCap: bool, published: set<string>, events: seq<Event>)

  ghost function Start(h: Hub): Round { Opened(h.c, h.own, h.inCap, h.published) }

  ghost function Final(h: Hub): Round { After(h.c, Start(h), h.events) }

  ghost predicate Proper(h: Hub) { OwnIdentity(h.c) && EraFields(h.c, h.own.et, h.own.admit) }

  /** What the first n attempts signed. */
  ghost function VotesOf(attempts: seq<Hub>, n: nat): set<Vote>
    requires n <= |attempts|
  {
    set i, v | 0 <= i < n && v in Final(attempts[i]).signed :: v
  }

  /** An attempt of a hub that follows the code, with an ok or failed fetch, and whose key nobody else can use. */
  ghost predicate Honest(h: Hub, earlier: set<Vote>) {
    && HashWidth(h.c) && h.c.strategy != JudgeModel && IsFetch(h.own)
    && (h.inCap || UnforgedRun(h.c, Start(h), h.events, earlier))
  }

  /** All attempts of one member at the request, oldest first. */
  ghost predicate HonestMember(c: Pinned, pk: string, attempts: seq<Hub>) {
    forall i :: 0 <= i < |attempts| ==> HonestAttempt(c, pk, attempts, i)
  }

  ghost predicate HonestAttempt(c: Pinned, pk: string, attempts: seq<Hub>, i: nat)
    requires i < |attempts|
  {
    attempts[i].c.me == pk && SameRequest(c, attempts[i].c) && Honest(attempts[i], VotesOf(attempts, i))
  }

  /** One of the first n fetches brought a body of this hash; an attempt over the body cap may also end up vouching for an
      empty one. */
  ghost predicate FetchedBy(attempts: seq<Hub>, n: nat, hash: string)
    requires n <= |attempts|
  {
    exists i :: 0 <= i < n && BringsTo(attempts[i], hash)
  }

  ghost predicate Fetched(attempts: seq<Hub>, hash: string) { FetchedBy(attempts, |attempts|, hash) }

  predicate BringsTo(h: Hub, hash: string) {
    h.c.hash(h.own.body) == hash || (!h.inCap && h.c.hash([]) == hash)
  }

  ghost function SignerKeys(signers: seq<Signer>): set<string> {
    set i | 0 <= i < |signers| :: signers[i].pubkey
  }

  ghost predicate FinalizedOk(h: Hub) { Final(h).emitted.Some? && Final(h).emitted.value.status == "ok" }

  ghost function BodyOf(h: Hub): Body
    requires Final(h).emitted.Some?
  {
    Final(h).emitted.value.winner.body
  }

  ghost predicate SignedBytes(h: Hub, bytes: string) { exists v :: v in Final(h).signed && VoteCanonical(h.c, v) == bytes }

  /** Every signature h counted under this key is one its holder made in one of its attempts. */
  ghost predicate CountsGenuine(h: Hub, pk: string, attempts: seq<Hub>) {
    Final(h).winner.Some? && Final(h).emitted.Some? ==>
      forall sig :: Signer(pk, sig) in Final(h).emitted.value.signers ==>
        exists i :: 0 <= i < |attempts| && SignedBytes(attempts[i], VoteCanonical(h.c, WinnerVote(Final(h))))
  }

  lemma FinalInv(h: Hub)
    requires Proper(h)
    ensures Inv(h.c, Final(h))
  {
    OpenedInv(h.c, h.own, h.inCap, h.published);
    EveryRunKeepsInv(h.c, Start(h), h.events);
  }

  /** Whatever a member signs in any of its attempts has a known outcome, and an ok vote is for a body it fetched in that
      attempt or an earlier one. */
  lemma {:induction false} MemberVotes(c: Pinned, pk: string, attempts: seq<Hub>, i: nat, v: Vote)
    requires HonestMember(c, pk, attempts) && i < |attempts| && v in Final(attempts[i]).signed
    ensures Outcome(v.status) && (v.status != "ok" ==> v.body == [])
    ensures v.status == "ok" ==> FetchedBy(attempts, i + 1, c.hash(v.body))
    decreases i
  {
    AttemptVotes(c, pk, attempts, i, v);
    if v.status == "ok" {
      if !BringsTo(attempts[i], c.hash(v.body)) {
        var j, u := EarlierVote(attempts, i, c.hash, c.hash(v.body));
        MemberVotes(c, pk, attempts, j, u);
      }
    }
  }

  lemma AttemptVotes(c: Pinned, pk: string, attempts: seq<Hub>, i: nat, v: Vote)
    requires HonestMember(c, pk, attempts) && i < |attempts| && v in Final(attempts[i]).signed
    ensures Outcome(v.status) && (v.status != "ok" ==> v.body == [])
    ensures v.status == "ok" && !BringsTo(attempts[i], c.hash(v.body)) ==>
              c.hash([]) != c.hash(v.body) && exists u :: u in VotesOf(attempts, i) && c.hash(u.body) == c.hash(v.body)
  {
    assert HonestAttempt(c, pk, attempts, i);
    var h := attempts[i];
    OkVoteNeedsOwnFetch(h.c, h.own, h.inCap, h.published, VotesOf(attempts, i), h.events, v);
  }

  lemma EarlierVote(attempts: seq<Hub>, i: nat, hash: Body -> string, h: string) returns (j: nat, u: Vote)
    requires i < |attempts| && exists u :: u in VotesOf(attempts, i) && hash(u.body) == h
    ensures j < i && u in Final(attempts[j]).signed && hash(u.body) == h
  {
    u :| u in VotesOf(attempts, i) && hash(u.body) == h;
    j :| 0 <= j < i && u in Final(attempts[j]).signed;
  }

  /** Bytes of the winner signed in attempt i are an ok vote for a body fetched by then. */
  lemma SignedVouches(h: Hub, pk: string, attempts: seq<Hub>, i: nat)
    requires HonestMember(h.c, pk, attempts) && i < |attempts|
    requires Final(h).winner.Some? && Final(h).status == "ok" && SignedBytes(attempts[i], VoteCanonical(h.c, WinnerVote(Final(h))))
    ensures Fetched(attempts, h.c.hash(Final(h).winner.value.body))
  {
    var w, s := WinnerVote(Final(h)), attempts[i];
    var v :| v in Final(s).signed && VoteCanonical(s.c, v) == VoteCanonical(h.c, w);
    MemberVotes(h.c, pk, attempts, i, v);
    assert HonestAttempt(h.c, pk, attempts, i);
    CanonicalDetermines(h.c, h.c.hash(w.body), w.status, w.meta, w.et, w.admit, s.c, s.c.hash(v.body), v.status, v.meta, v.et, v.admit);
  }

  /** An ok finalization carrying an honest member's signature carries a body of one of that member's fetches. */
  lemma SignerVouches(h: Hub, pk: string, attempts: seq<Hub>)
    requires Proper(h) && HonestMember(h.c, pk, attempts) && FinalizedOk(h)
    requires pk in SignerKeys(Final(h).emitted.value.signers) && CountsGenuine(h, pk, attempts)
    ensures Fetched(attempts, h.c.hash(BodyOf(h)))
  {
    FinalInv(h);
    var signers := Final(h).emitted.value.signers;
    var k :| 0 <= k < |signers| && signers[k].pubkey == pk;
    assert signers[k] == Signer(pk, signers[k].sig) && signers[k] in signers;
    var i :| 0 <= i < |attempts| && SignedBytes(attempts[i], VoteCanonical(h.c, WinnerVote(Final(h))));
    SignedVouches(h, pk, attempts, i);
  }

  /** The two bodies are not a hash collision. */
  ghost predicate NoCollision(c: Pinned, x: Body, y: Body) { c.hash(x) == c.hash(y) ==> x == y }

  /** The member was given two different answers. */
  ghost predicate FetchedBoth(attempts: seq<Hub>, x: string, y: string) { x != y && Fetched(attempts, x) && Fetched(attempts, y) }

  /** That takes more than one attempt within the body cap, and, for two bodies neither of which is empty, two different ok fetches. */
  lemma BothTakesTwoFetches(c: Pinned, pk: string, attempts: seq<Hub>, x: string, y: string) returns (i: nat, j: nat)
    requires HonestMember(c, pk, attempts) && FetchedBoth(attempts, x, y)
    ensures i < |attempts| && j < |attempts| && BringsTo(attempts[i], x) && BringsTo(attempts[j], y)
    ensures i == j ==> !attempts[i].inCap
    ensures x != c.hash([]) && y != c.hash([]) ==>
              && attempts[i].own.status == "ok" && c.hash(attempts[i].own.body) == x
              && attempts[j].own.status == "ok" && c.hash(attempts[j].own.body) == y
  {
    i :| 0 <= i < |attempts| && BringsTo(attempts[i], x);
    j :| 0 <= j < |attempts| && BringsTo(attempts[j], y);
    assert HonestAttempt(c, pk, attempts, i) && HonestAttempt(c, pk, attempts, j);
  }

  lemma {:induction false} DistinctKeys(signers: seq<Signer>)
    requires forall i, j :: 0 <= i < j < |signers| ==> signers[i].pubkey != signers[j].pubkey
    ensures |SignerKeys(signers)| == |signers|
  {
    if signers == [] {
      assert SignerKeys(signers) == {};
    } else {
      var front, last := signers[..|signers| - 1], signers[|signers| - 1];
      DistinctKeys(front);
      assert SignerKeys(signers) == SignerKeys(front) + {last.pubkey};
    }
  }

  // ------------------------------------------------------- overlapping groups

  /** Every two groups of q members share one outside any f of the members. */
  ghost predicate AlwaysOverlap(members: set<string>, q: nat, f: nat) {
    forall a, b, faulty :: a <= members && b <= members && faulty <= members && |a| == q && |b| == q && |faulty| <= f ==>
      !(a * b <= faulty)
  }

  /** Two groups too large to meet only in faulty members share an honest one. */
  lemma Overlap(a: set<string>, b: set<string>, members: set<string>, faulty: set<string>)
    requires a <= members && b <= members && |a| + |b| > |members| + |faulty|
    ensures !(a * b <= faulty)
  {
    SubsetSize(a + b, members);
    if a * b <= faulty { SubsetSize(a * b, faulty); }
  }

  lemma {:induction false} SomeSubset(s: set<string>, k: nat) returns (t: set<string>)
    requires k <= |s|
    ensures t <= s && |t| == k
  {
    if k == |s| {
      t := s;
    } else {
      var x :| x in s;
      t := SomeSubset(s - {x}, k);
    }
  }

  /** Otherwise two groups of q members can be chosen to meet in at most f of them. */
  lemma TwoGroups(members: set<string>, q: nat, f: nat) returns (a: set<string>, b: set<string>)
    requires q <= |members| && 2 * q <= |members| + f
    ensures a <= members && b <= members && |a| == q && |b| == q && |a * b| <= f
  {
    a := SomeSubset(members, q);
    var others := members - a;
    assert |others| == |members| - q;
    if q <= |others| {
      b := SomeSubset(others, q);
      assert a * b == {};
    } else {
      var c := SomeSubset(a, q - |others|);
      b := others + c;
      assert a * b == c;
    }
  }

  lemma OverlapExactly(members: set<string>, q: nat, f: nat)
    requires q <= |members| && f <= |members|
    ensures AlwaysOverlap(members, q, f) <==> 2 * q > |members| + f
  {
    if 2 * q > |members| + f {
      forall a, b, faulty | a <= members && b <= members && faulty <= members && |a| == q && |b| == q && |faulty| <= f
        ensures !(a * b <= faulty)
      {
        Overlap(a, b, members, faulty);
      }
    } else {
      var a, b := TwoGroups(members, q, f);
      assert a * b <= members && a * b <= a * b;
    }
  }

  /** The bare quorum formula makes every two quorums of a set share a member outside any third of it (rounded down
      from n - 1) exactly for these set sizes. */
  lemma HonestOverlapExactly(members: set<string>, n: nat)
    requires n == |members| && n >= 2
    ensures AlwaysOverlap(members, BftQuorum(n), (n - 1) / 3) <==> n % 3 == 1 || n == 2 || n == 3 || n == 6
  {
    OverlapExactly(members, BftQuorum(n), (n - 1) / 3);
    QuorumArithmetic(n);
  }

  lemma QuorumArithmetic(n: nat)
    requires n >= 2
    ensures 2 * BftQuorum(n) > n + (n - 1) / 3 <==> n % 3 == 1 || n == 2 || n == 3 || n == 6
  {
    var f, r := (n - 1) / 3, (n - 1) % 3;
    assert n == 3 * f + (r + 1) && 0 <= r < 3;
    BftQuorumIs(n, f, r);
    ModuloThree(n, f, r + 1);
  }

  lemma ModuloThree(n: int, f: int, r: int)
    requires n == 3 * f + r && 1 <= r <= 3
    ensures n % 3 == 1 <==> r == 1
  {
  }

  /** With n = 3f + r + 1 the formula is a majority for the two smallest f and 2f + 1 from then on. */
  lemma BftQuorumIs(n: nat, f: nat, r: nat)
    requires n >= 2 && n == 3 * f + (r + 1) && r < 3
    ensures BftQuorum(n) == if f == 0 then 2 else if f == 1 then (if r == 2 then 4 else 3) else 2 * f + 1
  {
    assert (n - 1) / 3 == f;
  }

  // ---------------------------------------------------------------- agreement

  /** All members of the two rounds. Later attempts may run with a wider set than earlier ones. */
  ghost function Pool(a: Hub, b: Hub): set<string> { Members(a.c) + Members(b.c) }

  /** Two ok finalizations of one request, every member faulty or honest, with no honest member's signature forged. */
  ghost predicate TwoFinalizations(a: Hub, b: Hub, honest: map<string, seq<Hub>>, faulty: set<string>) {
    && Proper(a) && Proper(b) && FinalizedOk(a) && FinalizedOk(b) && SameRequest(a.c, b.c)
    && (forall pk :: pk in Pool(a, b) ==> pk in faulty || pk in honest)
    && (forall pk :: pk in honest ==> Counted(a, pk, honest[pk]) && Counted(b, pk, honest[pk]))
  }

  ghost predicate Counted(h: Hub, pk: string, attempts: seq<Hub>) { HonestMember(h.c, pk, attempts) && CountsGenuine(h, pk, attempts) }

  /** Above the bar some honest member fetched both bodies: no disagreement without one member to whom the provider gave
      two answers. */
  lemma SharedFetch(a: Hub, b: Hub, honest: map<string, seq<Hub>>, faulty: set<string>) returns (pk: string)
    requires TwoFinalizations(a, b, honest, faulty) && Needed(a.c) + Needed(b.c) > |Pool(a, b)| + |faulty|
    ensures pk in honest && pk !in faulty && Fetched(honest[pk], a.c.hash(BodyOf(a))) && Fetched(honest[pk], b.c.hash(BodyOf(b)))
  {
    FinalInv(a);
    FinalInv(b);
    var sa, sb := Final(a).emitted.value.signers, Final(b).emitted.value.signers;
    DistinctKeys(sa);
    DistinctKeys(sb);
    Overlap(SignerKeys(sa), SignerKeys(sb), Pool(a, b), faulty);
    pk :| pk in SignerKeys(sa) * SignerKeys(sb) && pk !in faulty;
    assert Counted(a, pk, honest[pk]) && Counted(b, pk, honest[pk]);
    SignerVouches(a, pk, honest[pk]);
    SignerVouches(b, pk, honest[pk]);
  }

  /** So the bodies agree unless an honest member's attempts brought both. */
  lemma FinalizationsAgree(a: Hub, b: Hub, honest: map<string, seq<Hub>>, faulty: set<string>)
    requires TwoFinalizations(a, b, honest, faulty) && NoCollision(a.c, BodyOf(a), BodyOf(b))
    requires forall pk :: pk in honest ==> !FetchedBoth(honest[pk], a.c.hash(BodyOf(a)), b.c.hash(BodyOf(b)))
    requires Needed(a.c) + Needed(b.c) > |Pool(a, b)| + |faulty|
    ensures BodyOf(a) == BodyOf(b)
  {
    var pk := SharedFetch(a, b, honest, faulty);
    assert !FetchedBoth(honest[pk], a.c.hash(BodyOf(a)), b.c.hash(BodyOf(b)));
  }

  /** The bar a round as it is opened really has: twice its redundancy above the members, widened slots included, plus the
      faulty ones. */
  lemma AgreementAboveBar(a: Hub, b: Hub, honest: map<string, seq<Hub>>, faulty: set<string>)
    requires TwoFinalizations(a, b, honest, faulty) && NoCollision(a.c, BodyOf(a), BodyOf(b))
    requires forall pk :: pk in honest ==> !FetchedBoth(honest[pk], a.c.hash(BodyOf(a)), b.c.hash(BodyOf(b)))
    requires a.c.quorum == RoundQuorum(|a.c.responsible|, a.c.redundancy) && b.c.quorum == RoundQuorum(|b.c.responsible|, b.c.redundancy)
    requires a.c.redundancy == b.c.redundancy && 2 * a.c.redundancy > |Pool(a, b)| + |faulty|
    ensures BodyOf(a) == BodyOf(b)
  {
    RedundancyBinds(a.c);
    RedundancyBinds(b.c);
    FinalizationsAgree(a, b, honest, faulty);
  }

  // --------------------------------------------------------- where it is lost

  /** The attempt of one member of a plain round whose fetch brought `body`. */
  function MemberHub(base: Pinned, keysign: (string, string) -> string, pk: string, body: Body, events: seq<Event>): Hub {
    Hub(base.(me := pk, sign := KeyOf(keysign, pk)), OkVote(body), true, {}, events)
  }

  lemma {:induction false} ListOf(s: set<string>) returns (list: seq<string>)
    ensures forall x :: x in list <==> x in s
  {
    if s == {} {
      list := [];
    } else {
      var x :| x in s;
      list := ListOf(s - {x});
      list := [x] + list;
    }
  }

  /** It finalized the body on one signature of each of the group. */
  ghost predicate GroupFinal(base: Pinned, keysign: (string, string) -> string, h: Hub, body: Body, group: set<string>) {
    h == MemberHub(base, keysign, h.c.me, body, h.events) && SignedBy(h.c, body, Final(h), group) && Final(h).finalized
  }

  /** A member that finalizes its fetch with its group. */
  lemma GroupHub(base: Pinned, keysign: (string, string) -> string, body: Body, group: set<string>, pk: string) returns (h: Hub)
    requires PlainRound(base) && KeysVerify(base, keysign)
    requires group <= Members(base) && |group| == base.redundancy && pk in group
    ensures h.c.me == pk && GroupFinal(base, keysign, h, body, group) && Proper(h) && FinalizedOk(h) && BodyOf(h) == body
  {
    var others := ListOf(group - {pk});
    var c := base.(me := pk, sign := KeyOf(keysign, pk));
    h := MemberHub(base, keysign, pk, body, GroupRun(c, keysign, body, others));
    GroupFinalizes(c, keysign, body, {}, group, others);
    assert pk in Members(base);
  }

  /** Each of these attempts of the member brought an ok body, proposed and signed. */
  ghost predicate PlainAttempts(base: Pinned, keysign: (string, string) -> string, pk: string, attempts: seq<Hub>) {
    forall i :: 0 <= i < |attempts| ==> PlainAttempt(base, keysign, pk, attempts[i])
  }

  ghost predicate PlainAttempt(base: Pinned, keysign: (string, string) -> string, pk: string, s: Hub) {
    s == MemberHub(base, keysign, pk, s.own.body, s.events) && OkVote(s.own.body) in Final(s).signed
  }

  lemma IdleAttempt(base: Pinned, keysign: (string, string) -> string, pk: string, body: Body)
    ensures PlainAttempt(base, keysign, pk, MemberHub(base, keysign, pk, body, []))
  {
  }

  ghost predicate Offers(attempts: seq<Hub>, body: Body) { exists i :: 0 <= i < |attempts| && attempts[i].own.body == body }

  /** An honest member of a plain round is counted for a body it fetched, or not at all. */
  lemma MemberCounted(base: Pinned, keysign: (string, string) -> string, h: Hub, pk: string, attempts: seq<Hub>, body: Body, group: set<string>)
    requires PlainRound(base) && HashWidth(base) && GroupFinal(base, keysign, h, body, group)
    requires PlainAttempts(base, keysign, pk, attempts)
    requires pk in group ==> Offers(attempts, body)
    ensures Counted(h, pk, attempts)
  {
    forall j | 0 <= j < |attempts| ensures HonestAttempt(h.c, pk, attempts, j) {
      assert PlainAttempt(base, keysign, pk, attempts[j]);
    }
    SelectedAre(Final(h).signatures, Needed(h.c));
    var signers := Final(h).emitted.value.signers;
    var bytes := VoteCanonical(h.c, WinnerVote(Final(h)));
    forall sig | Signer(pk, sig) in signers ensures exists i :: 0 <= i < |attempts| && SignedBytes(attempts[i], bytes) {
      var k :| 0 <= k < |signers| && signers[k] == Signer(pk, sig);
      assert signers[k].pubkey in Final(h).signatures.Keys;
      var i :| 0 <= i < |attempts| && attempts[i].own.body == body;
      assert PlainAttempt(base, keysign, pk, attempts[i]);
      SameBytes(base, keysign, pk, h.c.me, attempts[i].events, h.events, OkVote(body));
    }
  }

  lemma SameBytes(base: Pinned, keysign: (string, string) -> string, p: string, q: string, events: seq<Event>, other: seq<Event>, v: Vote)
    ensures VoteCanonical(MemberHub(base, keysign, p, v.body, events).c, v) == VoteCanonical(MemberHub(base, keysign, q, v.body, other).c, v)
  {
  }

  /** The two finalizations are of this round's members and bodies. */
  ghost predicate Finalizes(base: Pinned, a: Hub, b: Hub, x: Body, y: Body) {
    && SameRequest(base, a.c) && a.c.responsible == base.responsible == b.c.responsible
    && a.c.redundancy == base.redundancy == b.c.redundancy && a.c.quorum == base.quorum == b.c.quorum
    && FinalizedOk(a) && FinalizedOk(b) && BodyOf(a) == x && BodyOf(b) == y
  }

  /** A member whose attempts brought x if it is in the one group, and y if in the other. */
  ghost predicate Serves(base: Pinned, keysign: (string, string) -> string, pk: string, attempts: seq<Hub>,
                         x: Body, ga: set<string>, y: Body, gb: set<string>)
  {
    PlainAttempts(base, keysign, pk, attempts) && (pk in ga ==> Offers(attempts, x)) && (pk in gb ==> Offers(attempts, y))
  }

  lemma GroupsFinalize(base: Pinned, keysign: (string, string) -> string, x: Body, ga: set<string>, ka: string,
                       y: Body, gb: set<string>, kb: string) returns (a: Hub, b: Hub)
    requires PlainRound(base) && KeysVerify(base, keysign)
    requires ga <= Members(base) && gb <= Members(base) && |ga| == |gb| == base.redundancy && ka in ga && kb in gb
    ensures a.c.me == ka && b.c.me == kb && Proper(a) && Proper(b) && Finalizes(base, a, b, x, y)
    ensures GroupFinal(base, keysign, a, x, ga) && GroupFinal(base, keysign, b, y, gb)
  {
    a := GroupHub(base, keysign, x, ga, ka);
    b := GroupHub(base, keysign, y, gb, kb);
  }

  lemma GroupsDisagree(base: Pinned, keysign: (string, string) -> string, x: Body, ga: set<string>, y: Body, gb: set<string>,
                       a: Hub, b: Hub, honest: map<string, seq<Hub>>, faulty: set<string>)
    requires PlainRound(base) && HashWidth(base) && Proper(a) && Proper(b) && Finalizes(base, a, b, x, y)
    requires GroupFinal(base, keysign, a, x, ga) && GroupFinal(base, keysign, b, y, gb)
    requires forall pk :: pk in Members(base) ==> pk in faulty || pk in honest
    requires forall pk :: pk in honest ==> Serves(base, keysign, pk, honest[pk], x, ga, y, gb)
    ensures TwoFinalizations(a, b, honest, faulty)
  {
    forall pk | pk in honest ensures Counted(a, pk, honest[pk]) && Counted(b, pk, honest[pk]) {
      assert Serves(base, keysign, pk, honest[pk], x, ga, y, gb);
      MemberCounted(base, keysign, a, pk, honest[pk], x, ga);
      MemberCounted(base, keysign, b, pk, honest[pk], y, gb);
    }
    assert Pool(a, b) == Members(base);
  }

  /** One attempt of a member outside both groups' intersection. */
  function Single(base: Pinned, keysign: (string, string) -> string, pk: string, x: Body, ga: set<string>, y: Body, a: Hub, b: Hub): seq<Hub> {
    [if pk == a.c.me then a else if pk == b.c.me then b else MemberHub(base, keysign, pk, if pk in ga then x else y, [])]
  }

  lemma SingleServes(base: Pinned, keysign: (string, string) -> string, pk: string, x: Body, ga: set<string>, y: Body, gb: set<string>, a: Hub, b: Hub)
    requires GroupFinal(base, keysign, a, x, ga) && GroupFinal(base, keysign, b, y, gb)
    requires a.c.me in ga && b.c.me in gb && pk !in ga * gb
    ensures Serves(base, keysign, pk, Single(base, keysign, pk, x, ga, y, a, b), x, ga, y, gb)
  {
    var list := Single(base, keysign, pk, x, ga, y, a, b);
    IdleAttempt(base, keysign, pk, if pk in ga then x else y);
    assert OkVote(x) in Final(a).signed && OkVote(y) in Final(b).signed;
    assert list[0].own.body == if pk in ga then x else list[0].own.body;
    if pk in gb { assert list[0].own.body == y; }
  }

  /** The bar is exact: at or below it, whatever the hash and the keys, two hubs can finalize any two bodies for one
      request although at most f members are faulty and every other member is honest and makes a single attempt. */
  lemma DisagreementBelowBar(base: Pinned, keysign: (string, string) -> string, x: Body, y: Body, f: nat)
    returns (a: Hub, b: Hub, honest: map<string, seq<Hub>>, faulty: set<string>)
    requires PlainRound(base) && KeysVerify(base, keysign) && HashWidth(base) && base.redundancy <= |Members(base)|
    requires 2 * base.redundancy <= |Members(base)| + f
    ensures TwoFinalizations(a, b, honest, faulty) && Finalizes(base, a, b, x, y) && |faulty| <= f
    ensures forall pk :: pk in honest ==> |honest[pk]| == 1
  {
    var ga, gb := TwoGroups(Members(base), base.redundancy, f);
    faulty := ga * gb;
    var ka :| ka in ga;
    var kb :| kb in gb;
    a, b := GroupsFinalize(base, keysign, x, ga, ka, y, gb, kb);
    honest := map pk | pk in Members(base) - faulty :: Single(base, keysign, pk, x, ga, y, a, b);
    forall pk | pk in honest ensures Serves(base, keysign, pk, honest[pk], x, ga, y, gb) {
      SingleServes(base, keysign, pk, x, ga, y, gb, a, b);
    }
    GroupsDisagree(base, keysign, x, ga, y, gb, a, b, honest, faulty);
  }

  /** At most two attempts, of which only the last finalizes: an ok outcome is not retried. */
  ghost predicate Twice(attempts: seq<Hub>) { |attempts| <= 2 && (|attempts| == 2 ==> !FinalizedOk(attempts[0])) }

  function Retried(base: Pinned, keysign: (string, string) -> string, pk: string, x: Body, y: Body, full: bool, a: Hub, b: Hub): seq<Hub> {
    if pk != a.c.me then [MemberHub(base, keysign, pk, x, []), if pk == b.c.me then b else MemberHub(base, keysign, pk, y, [])]
    else if full then [MemberHub(base, keysign, pk, y, []), a]
    else [a]
  }

  lemma RetriedServes(base: Pinned, keysign: (string, string) -> string, pk: string, x: Body, ga: set<string>, y: Body, gb: set<string>,
                      full: bool, a: Hub, b: Hub)
    requires GroupFinal(base, keysign, a, x, ga) && GroupFinal(base, keysign, b, y, gb) && (a.c.me in gb ==> full)
    ensures var list := Retried(base, keysign, pk, x, y, full, a, b); Serves(base, keysign, pk, list, x, ga, y, gb) && Twice(list)
  {
    var list := Retried(base, keysign, pk, x, y, full, a, b);
    IdleAttempt(base, keysign, pk, x);
    IdleAttempt(base, keysign, pk, y);
    assert OkVote(x) in Final(a).signed && OkVote(y) in Final(b).signed;
    if pk != a.c.me {
      assert list[0].own.body == x && list[1].own.body == y;
    } else if full {
      assert list[0].own.body == y && list[1].own.body == x;
    } else {
      assert list[0].own.body == x;
    }
  }

  ghost predicate AttemptOf(h: Hub, honest: map<string, seq<Hub>>) { h.c.me in honest && h in honest[h.c.me] }

  lemma RetriedHolds(base: Pinned, keysign: (string, string) -> string, x: Body, y: Body, full: bool, a: Hub, b: Hub)
    requires a.c.me != b.c.me
    ensures a in Retried(base, keysign, a.c.me, x, y, full, a, b) && b in Retried(base, keysign, b.c.me, x, y, full, a, b)
  {
    var s, t := Retried(base, keysign, a.c.me, x, y, full, a, b), Retried(base, keysign, b.c.me, x, y, full, a, b);
    assert s[|s| - 1] == a && t[1] == b;
  }

  /** Two groups with a member each to finalize them, the first of whom is in the other group only if everybody is. */
  lemma RetryGroups(members: set<string>, q: nat) returns (ka: string, ga: set<string>, kb: string, gb: set<string>)
    requires 0 < q <= |members| && |members| >= 2
    ensures ga <= members && gb <= members && |ga| == |gb| == q && ka in ga && kb in gb && ka != kb
    ensures ka in gb ==> q == |members|
  {
    ka :| ka in members;
    var rest := members - {ka};
    gb := SomeSubset(if q == |members| then members else rest, q);
    if gb <= {ka} { SubsetSize(gb, {ka}); }
    kb :| kb in gb && kb != ka;
    var others := SomeSubset(rest, q - 1);
    ga := others + {ka};
  }

  lemma RetriedFinalize(base: Pinned, keysign: (string, string) -> string, x: Body, ga: set<string>, y: Body, gb: set<string>,
                        full: bool, a: Hub, b: Hub) returns (honest: map<string, seq<Hub>>)
    requires PlainRound(base) && HashWidth(base) && Proper(a) && Proper(b) && Finalizes(base, a, b, x, y)
    requires GroupFinal(base, keysign, a, x, ga) && GroupFinal(base, keysign, b, y, gb) && (a.c.me in gb ==> full)
    ensures TwoFinalizations(a, b, honest, {}) && honest.Keys == Members(base)
    ensures forall pk :: pk in honest ==> honest[pk] == Retried(base, keysign, pk, x, y, full, a, b) && Twice(honest[pk])
  {
    honest := map pk | pk in Members(base) :: Retried(base, keysign, pk, x, y, full, a, b);
    forall pk | pk in honest ensures Serves(base, keysign, pk, honest[pk], x, ga, y, gb) && Twice(honest[pk]) {
      RetriedServes(base, keysign, pk, x, ga, y, gb, full, a, b);
    }
    GroupsDisagree(base, keysign, x, ga, y, gb, a, b, honest, {});
  }

  /** And with retries no bar helps: whatever the redundancy, two members of a round of two or more can finalize any two
      bodies with nobody faulty and at most two attempts each. Below full redundancy even the attempts line up: one hub
      finalizes its first, everybody else retries. */
  lemma RetriesDisagree(base: Pinned, keysign: (string, string) -> string, x: Body, y: Body)
    returns (a: Hub, b: Hub, honest: map<string, seq<Hub>>)
    requires PlainRound(base) && KeysVerify(base, keysign) && HashWidth(base) && base.redundancy <= |Members(base)| && |Members(base)| >= 2
    ensures TwoFinalizations(a, b, honest, {}) && Finalizes(base, a, b, x, y)
    ensures honest.Keys == Members(base) && AttemptOf(a, honest) && AttemptOf(b, honest)
    ensures forall pk :: pk in honest ==> Twice(honest[pk])
    ensures base.redundancy < |Members(base)| ==> honest[a.c.me] == [a]
  {
    var full := base.redundancy == |Members(base)|;
    var ka, ga, kb, gb := RetryGroups(Members(base), base.redundancy);
    a, b := GroupsFinalize(base, keysign, x, ga, ka, y, gb, kb);
    honest := RetriedFinalize(base, keysign, x, ga, y, gb, full, a, b);
    RetriedHolds(base, keysign, x, y, full, a, b);
    assert ka in Members(base) && kb in Members(base);
  }
}
