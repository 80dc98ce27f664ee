/** What a redacted tree is of the tree it came from, and what the reported number counts, without reference to the walk
    that makes them (src/api/config_redaction.js). */
module RedactionMeaning {
  import opened JsonText
  import opened ConfigRedaction

  // ------------------------------------------------------ input and output

  function KeysIn(v: Json): seq<(string, Json)> { if v.JObj? then v.fields else [] }

  /** after may stand where a pass that enters before at this depth leaves it: arrays keep their length, objects their keys
      in order except `__proto__`, all other values stay, secrets become the sentinel, strings are unchanged or print the
      document they carried once redacted, and only a node below the cap is cut off. */
  ghost predicate Follows(z: Runtime, before: Json, after: Json, depth: nat)
    requires Shrinks(z)
    decreases LongestString(before), 1, before, 0, |KeysIn(before)| + 1
  {
    match before
    case JArr(items) =>
      if depth > 8 then after == JStr("[truncated]")
      else after.JArr? && |after.items| == |items| && forall i :: 0 <= i < |items| ==> (ItemFits(before, i); Follows(z, items[i], after.items[i], depth + 1))
    case JObj(fields) =>
      if depth > 8 then after == JStr("[truncated]")
      else after.JObj? && FieldsFollow(z, before, after, depth, |fields|, |after.fields|)
    case _ => after == before
  }

  /** The first k fields became the first m. */
  ghost predicate FieldsFollow(z: Runtime, before: Json, after: Json, depth: nat, k: nat, m: nat)
    requires Shrinks(z) && before.JObj? && after.JObj? && k <= |before.fields| && m <= |after.fields|
    decreases LongestString(before), 1, before, 0, k
  {
    if k == 0 then m == 0
    else
      var f := before.fields[k - 1];
      FieldFits(before, k - 1);
      if f.0 == "__proto__" then FieldsFollow(z, before, after, depth, k - 1, m)
      else
        && m > 0 && after.fields[m - 1].0 == f.0
        && ValueFollows(z, f.0, f.1, after.fields[m - 1].1, depth + 1)
        && FieldsFollow(z, before, after, depth, k - 1, m - 1)
  }

  ghost predicate ValueFollows(z: Runtime, key: string, before: Json, after: Json, depth: nat)
    requires Shrinks(z)
    decreases LongestString(before), 1, before, 1, 0
  {
    if IsSecretParamName(key) then after == JStr("[redacted]")
    else if before.JStr? then after.JStr? && TextFollows(z, before.s, after.s)
    else Follows(z, before, after, depth)
  }

  ghost predicate TextFollows(z: Runtime, before: string, after: string)
    requires Shrinks(z)
    decreases |before|, 0
  {
    if ReachesInside(z, before) then exists d :: after == z.stringify(d) && Follows(z, Embedded(z, before).value, d, 1)
    else after == before
  }

  /** What the first k entries leave is a prefix of what all of them leave. */
  lemma {:induction false} FieldsFollowExactly(z: Runtime, before: Json, after: Json, depth: nat, k: nat, m: nat)
    requires Shrinks(z) && before.JObj? && after.JObj? && k <= |before.fields| && m <= |after.fields|
    ensures FieldsFollow(z, before, after, depth, k, m) <==>
            after.fields[..m] == RedactedFields(z, before, depth, k)
    decreases LongestString(before), 1, before, 1, k
  {
    if k > 0 {
      var f := before.fields[k - 1];
      FieldFits(before, k - 1);
      if f.0 == "__proto__" {
        FieldsFollowExactly(z, before, after, depth, k - 1, m);
      } else {
        var front := RedactedFields(z, before, depth, k - 1);
        if m > 0 {
          FieldsFollowExactly(z, before, after, depth, k - 1, m - 1);
          ValueFollowsExactly(z, f.0, f.1, after.fields[m - 1].1, depth + 1);
          SnocEqual(after.fields[..m - 1], after.fields[m - 1], front, (f.0, RedactField(z, f.0, f.1, depth + 1)));
          assert after.fields[..m] == after.fields[..m - 1] + [after.fields[m - 1]];
        }
      }
    }
  }

  lemma SnocEqual<T>(a: seq<T>, x: T, b: seq<T>, y: T)
    ensures a + [x] == b + [y] <==> a == b && x == y
  {
    if a + [x] == b + [y] {
      assert a == (a + [x])[..|a|] && b == (b + [y])[..|b|];
      assert x == (a + [x])[|a|] && y == (b + [y])[|b|];
    }
  }

  /** What the entries up to the k-th become. */
  function RedactedFields(z: Runtime, node: Json, depth: nat, k: nat): seq<(string, Json)>
    requires Shrinks(z) && node.JObj? && k <= |node.fields|
  {
    if k == 0 then []
    else
      var f := node.fields[k - 1];
      RedactedFields(z, node, depth, k - 1) + if f.0 == "__proto__" then [] else [(f.0, RedactField(z, f.0, f.1, depth + 1))]
  }

  lemma RedactedStep(z: Runtime, node: Json, depth: nat, k: nat)
    requires Shrinks(z) && node.JObj? && 0 < k <= |node.fields|
    ensures var front, f := RedactedFields(z, node, depth, k - 1), node.fields[k - 1];
            RedactedFields(z, node, depth, k) == if f.0 == PROTO then front else front + [(f.0, RedactField(z, f.0, f.1, depth + 1))]
  {
    assert RedactedFields(z, node, depth, k - 1) + [] == RedactedFields(z, node, depth, k - 1);
  }

  lemma {:induction false} RedactedFieldsAre(z: Runtime, node: Json, depth: nat, k: nat)
    requires Shrinks(z) && node.JObj? && depth <= MAX_DEPTH && k <= |node.fields|
    ensures Assigned(z, node, depth, k, RedactedFields(z, node, depth, k))
  {
    if k == 0 {
      AssignedNone(z, node, depth);
    } else {
      RedactedFieldsAre(z, node, depth, k - 1);
      RedactedNext(z, node, depth, k - 1);
    }
  }

  lemma RedactedNext(z: Runtime, node: Json, depth: nat, k: nat)
    requires Shrinks(z) && node.JObj? && depth <= MAX_DEPTH && k < |node.fields|
    requires Assigned(z, node, depth, k, RedactedFields(z, node, depth, k))
    ensures Assigned(z, node, depth, k + 1, RedactedFields(z, node, depth, k + 1))
  {
    AssignedNext(z, node, depth, k, RedactedFields(z, node, depth, k));
    RedactedStep(z, node, depth, k + 1);
  }

  lemma AssignedNone(z: Runtime, node: Json, depth: nat)
    requires Shrinks(z) && node.JObj? && depth <= MAX_DEPTH
    ensures Assigned(z, node, depth, 0, [])
  {
    assert node.fields[..0] == [];
  }

  lemma ObjectIs(z: Runtime, node: Json, depth: nat)
    requires Shrinks(z) && node.JObj? && depth <= MAX_DEPTH
    ensures Redact(z, node, depth) == JObj(RedactedFields(z, node, depth, |node.fields|))
  {
    RedactedFieldsAre(z, node, depth, |node.fields|);
    AssignedAll(z, node, depth, RedactedFields(z, node, depth, |node.fields|));
  }

  lemma {:induction false} ValueFollowsExactly(z: Runtime, key: string, before: Json, after: Json, depth: nat)
    requires Shrinks(z)
    ensures ValueFollows(z, key, before, after, depth) <==> after == RedactField(z, key, before, depth)
    decreases LongestString(before), 1, before, 2, 0
  {
    if !IsSecretParamName(key) {
      if before.JStr? {
        if after.JStr? { TextFollowsExactly(z, before.s, after.s); }
      } else {
        FollowsExactly(z, before, after, depth);
      }
    }
  }

  lemma {:induction false} TextFollowsExactly(z: Runtime, before: string, after: string)
    requires Shrinks(z)
    ensures TextFollows(z, before, after) <==> after == RedactString(z, before)
    decreases |before|, 0
  {
    StringCountsWhatItReaches(z, before);
    if ReachesInside(z, before) {
      var doc := Embedded(z, before).value;
      FollowsExactly(z, doc, Redact(z, doc, 1), 1);
      if d :| after == z.stringify(d) && Follows(z, doc, d, 1) { FollowsExactly(z, doc, d, 1); }
    }
  }

  /** The redacted tree is the one tree that follows from the input in this way. */
  lemma {:induction false} FollowsExactly(z: Runtime, before: Json, after: Json, depth: nat)
    requires Shrinks(z)
    ensures Follows(z, before, after, depth) <==> after == Redact(z, before, depth)
    decreases LongestString(before), 1, before, 1, |KeysIn(before)| + 1
  {
    if before.JArr? && depth <= 8 {
      if after.JArr? && |after.items| == |before.items| {
        forall i | 0 <= i < |before.items|
          ensures Follows(z, before.items[i], after.items[i], depth + 1) <==> after.items[i] == Redact(z, before.items[i], depth + 1)
        {
          ItemFits(before, i);
          FollowsExactly(z, before.items[i], after.items[i], depth + 1);
        }
        ArrayIs(z, before, after, depth);
      }
    } else if before.JObj? && depth <= 8 {
      ObjectIs(z, before, depth);
      if after.JObj? {
        FieldsFollowExactly(z, before, after, depth, |before.fields|, |after.fields|);
        assert after.fields[..|after.fields|] == after.fields;
      }
    }
  }

  lemma ArrayIs(z: Runtime, before: Json, after: Json, depth: nat)
    requires Shrinks(z) && before.JArr? && after.JArr? && |after.items| == |before.items| && depth <= MAX_DEPTH
    ensures after == Redact(z, before, depth) <==> forall i :: 0 <= i < |before.items| ==> after.items[i] == Redact(z, before.items[i], depth + 1)
  {
    var r := Redact(z, before, depth);
    assert |r.items| == |before.items| && forall i :: 0 <= i < |before.items| ==> r.items[i] == Redact(z, before.items[i], depth + 1);
    if forall i :: 0 <= i < |before.items| ==> after.items[i] == Redact(z, before.items[i], depth + 1) { assert after.items == r.items; }
  }

  // ------------------------------------------------------ nothing to redact

  /** No object of the tree has a `__proto__` key, and none of its nodes lies below the cap. */
  ghost predicate Ordinary(node: Json, depth: nat)
    decreases node
  {
    match node
    case JArr(items) => depth <= 8 && forall i :: 0 <= i < |items| ==> Ordinary(items[i], depth + 1)
    case JObj(fields) => depth <= 8 && forall i :: 0 <= i < |fields| ==> fields[i].0 != "__proto__" && Ordinary(fields[i].1, depth + 1)
    case _ => true
  }

  lemma {:induction false} Unchanged(z: Runtime, node: Json, depth: nat)
    requires Shrinks(z) && !Reaches(z, node, depth) && Ordinary(node, depth)
    ensures Follows(z, node, node, depth)
    decreases node, |KeysIn(node)| + 1
  {
    if node.JArr? {
      forall i | 0 <= i < |node.items| ensures Follows(z, node.items[i], node.items[i], depth + 1) {
        ItemFits(node, i);
        Unchanged(z, node.items[i], depth + 1);
      }
    } else if node.JObj? {
      FieldsUnchanged(z, node, depth, |node.fields|);
    }
  }

  lemma {:induction false} FieldsUnchanged(z: Runtime, node: Json, depth: nat, k: nat)
    requires Shrinks(z) && node.JObj? && !Reaches(z, node, depth) && Ordinary(node, depth) && k <= |node.fields|
    ensures FieldsFollow(z, node, node, depth, k, k)
    decreases node, k
  {
    if k > 0 {
      var f := node.fields[k - 1];
      FieldFits(node, k - 1);
      assert !ReachesIn(z, f.0, f.1, depth + 1);
      if !f.1.JStr? { Unchanged(z, f.1, depth + 1); }
      FieldsUnchanged(z, node, depth, k - 1);
    }
  }

  /** A tree in which the pass reaches no secret comes back as it was, nothing counted, unless assignment or the cap takes
      something from it. */
  lemma NothingToRedact(z: Runtime, node: Json, depth: nat)
    requires Shrinks(z) && !Reaches(z, node, depth) && Ordinary(node, depth)
    ensures Redact(z, node, depth) == node && Count(z, node, depth) == 0
  {
    CountsWhatItReaches(z, node, depth);
    Unchanged(z, node, depth);
    FollowsExactly(z, node, node, depth);
  }

  // ------------------------------------------------------- what is counted

  /** A path of child numbers leads to a secret-named key within reach; a string field is entered through its document. */
  ghost predicate SecretAt(z: Runtime, node: Json, depth: nat, path: seq<nat>)
    decreases |path|
  {
    path != [] && depth <= 8 &&
    match node
    case JArr(items) => path[0] < |items| && SecretAt(z, items[path[0]], depth + 1, path[1..])
    case JObj(fields) =>
      path[0] < |fields| &&
      var f := fields[path[0]];
      if IsSecretParamName(f.0) then path[1..] == []
      else if f.1.JStr? then Carries(z, f.1.s) && SecretAt(z, Embedded(z, f.1.s).value, 1, path[1..])
      else SecretAt(z, f.1, depth + 1, path[1..])
    case _ => false
  }

  /** The paths that begin with i. */
  ghost function Under(i: nat, paths: set<seq<nat>>): set<seq<nat>> { set p | p in paths :: [i] + p }

  lemma UnderMember(i: nat, paths: set<seq<nat>>, path: seq<nat>)
    ensures path in Under(i, paths) <==> path != [] && path[0] == i && path[1..] in paths
  {
    if path != [] && path[0] == i && path[1..] in paths { assert path == [i] + path[1..]; }
  }

  lemma {:induction false} UnderSize(i: nat, paths: set<seq<nat>>)
    ensures |Under(i, paths)| == |paths|
  {
    if paths == {} {
      assert Under(i, paths) == {};
    } else {
      var p :| p in paths;
      UnderSize(i, paths - {p});
      UnderMember(i, paths - {p}, [i] + p);
      assert ([i] + p)[1..] == p;
      assert Under(i, paths) == Under(i, paths - {p}) + {[i] + p};
    }
  }

  /** The secrets of the first k children. */
  ghost predicate SecretsBefore(z: Runtime, node: Json, depth: nat, k: nat, paths: set<seq<nat>>) {
    forall p :: p in paths <==> SecretAt(z, node, depth, p) && p[0] < k
  }

  ghost predicate AreSecrets(z: Runtime, node: Json, depth: nat, paths: set<seq<nat>>) {
    forall p :: p in paths <==> SecretAt(z, node, depth, p)
  }

  /** The secrets of child k are those below it. */
  ghost predicate ChildSecrets(z: Runtime, node: Json, depth: nat, k: nat, below: set<seq<nat>>) {
    forall p: seq<nat> :: p != [] && p[0] == k ==> (SecretAt(z, node, depth, p) <==> p[1..] in below)
  }

  lemma OneMoreChild(z: Runtime, node: Json, depth: nat, k: nat, before: set<seq<nat>>, below: set<seq<nat>>)
    requires SecretsBefore(z, node, depth, k, before) && ChildSecrets(z, node, depth, k, below)
    ensures SecretsBefore(z, node, depth, k + 1, before + Under(k, below))
    ensures |before + Under(k, below)| == |before| + |below|
  {
    forall p ensures p in before + Under(k, below) <==> SecretAt(z, node, depth, p) && p[0] < k + 1 { UnderMember(k, below, p); }
    UnderSize(k, below);
    forall p | p in Under(k, below) ensures p !in before { UnderMember(k, below, p); }
    assert before !! Under(k, below);
  }

  lemma NoneBefore(z: Runtime, node: Json, depth: nat)
    ensures SecretsBefore(z, node, depth, 0, {})
  {
  }

  /** The reported number is that of the secret-named keys within reach, each counted once. */
  lemma {:induction false} CountIsSecrets(z: Runtime, node: Json, depth: nat) returns (paths: set<seq<nat>>)
    requires Shrinks(z)
    ensures AreSecrets(z, node, depth, paths) && |paths| == Count(z, node, depth)
    decreases LongestString(node), 1, node, 1, 0
  {
    if depth > MAX_DEPTH || !IsNode(node) {
      paths := {};
    } else if node.JArr? {
      paths := ItemSecrets(z, node, depth, |node.items|);
    } else {
      paths := FieldSecrets(z, node, depth, |node.fields|);
    }
  }

  lemma {:induction false} ItemSecrets(z: Runtime, node: Json, depth: nat, k: nat) returns (paths: set<seq<nat>>)
    requires Shrinks(z) && node.JArr? && depth <= MAX_DEPTH && k <= |node.items|
    ensures ItemsCounted(z, node, depth, k, paths)
    decreases LongestString(node), 1, node, 0, k
  {
    if k == 0 {
      paths := {};
      NoneBefore(z, node, depth);
    } else {
      var before := ItemSecrets(z, node, depth, k - 1);
      ItemFits(node, k - 1);
      var below := CountIsSecrets(z, node.items[k - 1], depth + 1);
      paths := OneMoreItem(z, node, depth, k - 1, before, below);
    }
  }

  ghost predicate ItemsCounted(z: Runtime, node: Json, depth: nat, k: nat, paths: set<seq<nat>>)
    requires Shrinks(z) && node.JArr? && k <= |node.items|
  {
    SecretsBefore(z, node, depth, k, paths) && |paths| == CountItems(z, node, depth, k)
  }

  lemma OneMoreItem(z: Runtime, node: Json, depth: nat, k: nat, before: set<seq<nat>>, below: set<seq<nat>>) returns (paths: set<seq<nat>>)
    requires Shrinks(z) && node.JArr? && depth <= MAX_DEPTH && k < |node.items| && ItemsCounted(z, node, depth, k, before)
    requires AreSecrets(z, node.items[k], depth + 1, below) && |below| == Count(z, node.items[k], depth + 1)
    ensures ItemsCounted(z, node, depth, k + 1, paths)
  {
    paths := before + Under(k, below);
    OneMoreChild(z, node, depth, k, before, below);
  }

  lemma {:induction false} FieldSecrets(z: Runtime, node: Json, depth: nat, k: nat) returns (paths: set<seq<nat>>)
    requires Shrinks(z) && node.JObj? && depth <= MAX_DEPTH && k <= |node.fields|
    ensures FieldsCounted(z, node, depth, k, paths)
    decreases LongestString(node), 1, node, 0, k
  {
    if k == 0 {
      paths := {};
      NoFields(z, node, depth);
    } else {
      var before := FieldSecrets(z, node, depth, k - 1);
      var below := SecretsOfField(z, node, depth, k - 1);
      paths := OneMoreField(z, node, depth, k - 1, before, below);
    }
  }

  lemma NoFields(z: Runtime, node: Json, depth: nat)
    requires Shrinks(z) && node.JObj?
    ensures FieldsCounted(z, node, depth, 0, {})
  {
    NoneBefore(z, node, depth);
  }

  ghost predicate FieldsCounted(z: Runtime, node: Json, depth: nat, k: nat, paths: set<seq<nat>>)
    requires Shrinks(z) && node.JObj? && k <= |node.fields|
  {
    SecretsBefore(z, node, depth, k, paths) && |paths| == CountFields(z, node, depth, k)
  }

  lemma OneMoreField(z: Runtime, node: Json, depth: nat, k: nat, before: set<seq<nat>>, below: set<seq<nat>>) returns (paths: set<seq<nat>>)
    requires Shrinks(z) && node.JObj? && k < |node.fields| && FieldsCounted(z, node, depth, k, before)
    requires ChildSecrets(z, node, depth, k, below) && |below| == CountField(z, node.fields[k].0, node.fields[k].1, depth + 1)
    ensures FieldsCounted(z, node, depth, k + 1, paths)
  {
    paths := before + Under(k, below);
    OneMoreChild(z, node, depth, k, before, below);
  }

  lemma {:induction false} SecretsOfField(z: Runtime, node: Json, depth: nat, k: nat) returns (below: set<seq<nat>>)
    requires Shrinks(z) && node.JObj? && depth <= MAX_DEPTH && k < |node.fields|
    ensures ChildSecrets(z, node, depth, k, below) && |below| == CountField(z, node.fields[k].0, node.fields[k].1, depth + 1)
    decreases LongestString(node), 1, node, 0, 0
  {
    var f := node.fields[k];
    FieldFits(node, k);
    if IsSecretParamName(f.0) {
      below := {[]};
    } else if f.1.JStr? {
      if Carries(z, f.1.s) { below := CountIsSecrets(z, Embedded(z, f.1.s).value, 1); } else { below := {}; }
    } else {
      below := CountIsSecrets(z, f.1, depth + 1);
    }
  }
}
